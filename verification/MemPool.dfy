/** The region allocator. The chains of nodes and of records are sequences here, in chain order. */
module MemPool {
  import opened PoolHeap
  import opened PoolNodes

  /** The first five records are looked at for one without a block. */
  ghost predicate NoneFree(large: seq<Record>) {
    forall k :: 0 <= k < |large| && k < 5 ==> large[k].alloc != 0
  }

  ghost predicate FirstFree(large: seq<Record>, k: nat) {
    k < |large| && k < 5 && large[k].alloc == 0 && forall j :: 0 <= j < k ==> large[j].alloc != 0
  }

  /** Block `p` was allocated and a record for it, made in the region at `m`, put in front. */
  ghost predicate Recorded(v: View, v': View, size: nat, p: nat, bytes: nat, i: nat, m: nat) {
    var ok :=
      && p != 0 && p !in v.blocks && bytes <= v.left
      && Gave(WithBlock(v, p, bytes), v'.(large := v.large), size, i, m, RECORD, true)
      && v'.large == [Record(m, p)] + v.large;
    ok
  }

  lemma RecordedKept(v: View, v2: View, at: nat, size: nat, max: nat, p: nat, bytes: nat, i: nat, m: nat)
    requires p != 0 && p !in v.blocks && bytes <= v.left && Unnamed(WithBlock(v, p, bytes), at, p)
    requires Kept(v, at, size, max) && Kept(v2, at, size, max) && max >= RECORD
    requires Gave(WithBlock(v, p, bytes), v2, size, i, m, RECORD, true)
    ensures var v' := v2.(large := [Record(m, p)] + v2.large);
      Kept(v', at, size, max) && Recorded(v, v', size, p, bytes, i, m) && Larges(v'.large) == Larges(v.large) + {p}
  {
    GaveRecord(WithBlock(v, p, bytes), v2, at, size, i, m, p);
    PrependedKept(v2, at, size, max, p, m);
  }

  /** Block `p` was allocated and the first record without a block took it. */
  ghost predicate Reused(v: View, v': View, p: nat, bytes: nat, k: nat) {
    var ok :=
      && p != 0 && p !in v.blocks && bytes <= v.left && FirstFree(v.large, k)
      && v' == WithBlock(v, p, bytes).(large := v.large[k := v.large[k].(alloc := p)]);
    ok
  }

  /** A large request was granted: the first record without a block takes it, or else there is a new one. */
  ghost predicate LargeGiven(v: View, v': View, size: nat, p: nat, bytes: nat, i: nat, m: nat) {
    Reused(v, v', p, bytes, i) || (NoneFree(v.large) && Recorded(v, v', size, p, bytes, i, m))
  }

  /** A large request adds one block to those the records name, and it was not in use before. */
  lemma OneMoreLarge(v: View, v': View, at: nat, size: nat, max: nat, p: nat, bytes: nat, i: nat, m: nat)
    requires Kept(v, at, size, max) && max >= RECORD
    requires Reused(v, v', p, bytes, i) || Recorded(v, v', size, p, bytes, i, m)
    ensures p !in Larges(v.large) && Larges(v'.large) == Larges(v.large) + {p}
    ensures p in v'.blocks && v'.blocks[p] == bytes && forall b :: b in v.blocks ==> b in v'.blocks
    ensures Recorded(v, v', size, p, bytes, i, m) ==> i < |v'.regions| && Region(m, 16) in v'.regions[i]
  {
    BlockKept(v, at, size, max, p, bytes);
    if Reused(v, v', p, bytes, i) {
      ReusedKept(WithBlock(v, p, bytes), at, size, max, p, i);
    } else {
      var v2 := v'.(large := v.large);
      GaveKept(WithBlock(v, p, bytes), v2, at, size, max, i, m, RECORD, true);
      RecordedKept(v, v2, at, size, max, p, bytes, i, m);
      assert v'.regions[i][|v'.regions[i]| - 1] == Region(m, 16);
    }
  }

  /** The guard of a large request: its record, if there is to be a new one, starts inside its node. */
  ghost predicate RecordInside(v: View, i: nat) { NoneFree(v.large) ==> StartsInside(v.nodes, i, true) }

  /** A region at the front of a new block, whose node was appended. */
  lemma BlockGave(v: View, v': View, at: nat, size: nat, max: nat, m: nat, bytes: nat, aligned: bool)
    requires Kept(v, at, size, max) && FirstRoom(v, |v.nodes|, bytes, aligned)
    requires NODE <= m && (m - NODE) % ALIGNMENT == 0 && m - NODE !in v.blocks && NODE + size <= v.left
    requires v' == View(NextCurrent(v.nodes, v.current), Grown(v.nodes, v.current, m, bytes, size), v.large,
                        v.regions + [[Region(m, bytes)]], v.blocks[m - NODE := NODE + size], v.left - (NODE + size))
    ensures Gave(v, v', size, |v.nodes|, m, bytes, aligned) && Kept(v', at, size, max)
  {
    GaveKept(v, v', at, size, max, |v.nodes|, m, bytes, aligned);
  }

  lemma EndsBelow(v: View, at: nat, size: nat, max: nat, j: nat)
    requires Kept(v, at, size, max) && j < |v.nodes| && forall b :: b in v.blocks ==> b + v.blocks[b] <= SPACE
    ensures v.nodes[j].end < WRAP
  {
    assert j > 0 ==> NodeBlock(v.nodes[j].at, at, size, v.blocks);
  }

  /** All regions stay inside their nodes exactly when the request met its guard. */
  lemma StillSound(v: View, v': View, at: nat, size: nat, max: nat, i: nat, m: nat, bytes: nat, aligned: bool)
    requires Kept(v, at, size, max) && Sound(v.nodes) && Gave(v, v', size, i, m, bytes, aligned) && bytes <= max
    requires forall b :: b in v.blocks ==> b + v.blocks[b] <= SPACE
    ensures Sound(v'.nodes) <==> StartsInside(v.nodes, i, aligned)
  {
    forall j | 0 <= j < |v.nodes|
      ensures v.nodes[j].end < WRAP
    {
      EndsBelow(v, at, size, max, j);
    }
    GaveInside(v, v', at, size, max, i, m, bytes, aligned);
  }

  /**
   mp_create_pool: one block for the pool, the header of its first node and that node's bytes. The sum of
   the three is a size_t: for a size so large that it wraps the block is too small, and there is no pool.
   */
  method Create(heap: Heap, size: nat) returns (pool: Pool?)
    requires heap.Valid() && size < WRAP
    modifies heap
    ensures heap.Valid() && (pool == null ==> heap.blocks == old(heap.blocks) && heap.refused > old(heap.refused))
    ensures pool != null ==> fresh(pool) && pool.size == size
    ensures pool != null ==> (pool.Valid(heap) <==> size + 56 < 0x1_0000_0000_0000_0000)
    ensures pool != null ==> |pool.nodes| == 1 && Sound(pool.nodes) && pool.large == [] && pool.regions == [[]]
    ensures pool != null ==> pool.at !in old(heap.blocks)
    ensures pool != null ==> heap.blocks == old(heap.blocks)[pool.at := (size + 56) % 0x1_0000_0000_0000_0000]
    ensures pool != null ==> pool.at % 32 == 0 && pool.max == if size < 4095 then size else 4095
  {
    var p := heap.Allocate(ALIGNMENT, (size + HEADER + NODE) % WRAP);
    if p == 0 {
      return null;
    }
    pool := new Pool(p, size);
    pool.Made(heap);
  }

  class Pool {
    const at: nat
    /** The bytes each node has for regions. */
    ghost const size: nat
    const max: nat
    var current: nat
    var nodes: seq<Node>
    var large: seq<Record>
    /** For each node, the regions handed out from it since the pool was made or last reset. */
    ghost var regions: seq<seq<Region>>

    ghost function View(heap: Heap): View
      reads this, heap
    {
      PoolNodes.View(current, nodes, large, regions, heap.blocks, heap.left)
    }

    ghost predicate Valid(heap: Heap)
      reads this, heap
    {
      var ok :=
        heap.Valid() && Kept(View(heap), at, size, max);
      ok
    }

    /** mp_create_pool, with the block that posix_memalign returned. */
    constructor (block: nat, bytes: nat)
      ensures at == block && size == bytes && max == if bytes < MAX_ALLOC then bytes else MAX_ALLOC
      ensures nodes == [First(block, bytes)] && current == 0 && large == [] && regions == [[]]
    {
      at, size := block, bytes;
      max := if bytes < MAX_ALLOC then bytes else MAX_ALLOC;
      current := 0;
      large := [];
      nodes := [First(block, bytes)];
      regions := [[]];
    }

    /** The node in the pool's own block. */
    static function First(block: nat, bytes: nat): Node {
      var last := block + HEADER + NODE;
      Node(block + HEADER, last, last + bytes, 0)
    }

    /** The pool is in order if its block holds all of it. */
    lemma Made(heap: Heap)
      requires heap.Valid() && at in heap.blocks && at % ALIGNMENT == 0
      requires max == if size < MAX_ALLOC then size else MAX_ALLOC
      requires nodes == [First(at, size)] && current == 0 && large == [] && regions == [[]]
      ensures Sound(nodes) && (Valid(heap) <==> heap.blocks[at] == size + HEADER + NODE)
    {
    }

    /**
     The loops of mp_alloc and mp_nalloc: the first node with room from `current` on; no more than seven
     nodes are looked at.
     */
    method FirstFit(bytes: nat, aligned: bool, ghost heap: Heap) returns (i: nat, ghost looked: nat)
      requires Valid(heap)
      ensures FirstRoom(View(heap), i, bytes, aligned) && looked <= 7
    {
      i, looked := current, 0;
      while i < |nodes|
        invariant current <= i <= |nodes| && looked == i - current
        invariant forall j :: current <= j < i ==> !Fits(Start(nodes[j], aligned), nodes[j].end, bytes)
      {
        looked := looked + 1;
        var m := Start(nodes[i], aligned);
        if Fits(m, nodes[i].end, bytes) {
          return;
        }
        i := i + 1;
      }
    }

    /** The loop of mp_alloc_block: a failure for every node passed, and `current` behind those with more than four. */
    method Bump()
      requires Counted(nodes, current)
      modifies this`nodes, this`current
      ensures nodes == Bumped(old(nodes), old(current)) && current == NextCurrent(old(nodes), old(current))
    {
      var p, next := current, current;
      while p < |nodes| - 1
        invariant |nodes| == |old(nodes)| && current == old(current) <= p < |nodes|
        invariant forall k :: 0 <= k < |nodes| ==>
          nodes[k] == if current <= k < p then old(nodes)[k].(failed := old(nodes)[k].failed + 1) else old(nodes)[k]
        invariant next == if p > current && old(nodes)[current].failed > 4 then current + 1 else current
      {
        if nodes[p].failed > 4 {
          next := p + 1;
        }
        nodes := nodes[p := nodes[p].(failed := nodes[p].failed + 1)];
        p := p + 1;
      }
      current := next;
    }

    /**
     mp_alloc_block: a new node at the end of the chain, with the region at its front. The nodes from
     `current` on but the last count a failure, and `current` passes those that had more than four.
     */
    method AllocBlock(heap: Heap, bytes: nat, ghost aligned: bool) returns (m: nat)
      requires Valid(heap) && FirstRoom(View(heap), |nodes|, bytes, aligned)
      modifies this`nodes, this`regions, this`current, heap
      ensures Valid(heap) && (m == 0 ==> View(heap) == old(View(heap)) && heap.refused > old(heap.refused))
      ensures m != 0 ==> Gave(old(View(heap)), View(heap), size, |old(nodes)|, m, bytes, aligned)
    {
      var psize := nodes[0].end - nodes[0].at;
      var block := heap.Allocate(ALIGNMENT, psize);
      if block == 0 {
        return 0;
      }
      m := AlignUp(block + NODE);
      AppendNode(Node(block, m + bytes, block + psize, 0), m, bytes);
      BlockGave(old(View(heap)), View(heap), at, size, max, m, bytes, aligned);
    }

    method AppendNode(node: Node, ghost m: nat, ghost bytes: nat)
      requires Counted(nodes, current) && NODE <= m && node == Node(m - NODE, m + bytes, m + size, 0)
      modifies this`nodes, this`regions, this`current
      ensures nodes == Grown(old(nodes), old(current), m, bytes, size)
      ensures current == NextCurrent(old(nodes), old(current)) && regions == old(regions) + [[Region(m, bytes)]]
    {
      Bump();
      nodes := nodes + [node];
      regions := regions + [[Region(m, bytes)]];
    }

    /** The region is taken from the node at `k`. */
    method Carve(ghost heap: Heap, k: nat, bytes: nat, aligned: bool) returns (m: nat)
      requires Valid(heap) && k < |nodes| && FirstRoom(View(heap), k, bytes, aligned)
      modifies this`nodes, this`regions
      ensures Valid(heap) && m != 0 && Gave(old(View(heap)), View(heap), size, k, m, bytes, aligned)
    {
      m := Start(nodes[k], aligned);
      nodes := nodes[k := nodes[k].(last := m + bytes)];
      regions := MoreRegions(regions, k, m, bytes);
      GaveKept(old(View(heap)), View(heap), at, size, max, k, m, bytes, aligned);
    }

    /** The branch of mp_alloc (`aligned`) and mp_nalloc for a small request. */
    method Small(heap: Heap, bytes: nat, aligned: bool) returns (m: nat, ghost i: nat)
      requires Valid(heap) && bytes <= max
      modifies this`nodes, this`regions, this`current, heap
      ensures Valid(heap) && (m == 0 ==> View(heap) == old(View(heap)) && heap.refused > old(heap.refused))
      ensures m == 0 ==> FirstRoom(View(heap), |nodes|, bytes, aligned)
      ensures m != 0 ==> Gave(old(View(heap)), View(heap), size, i, m, bytes, aligned)
      ensures m != 0 && old(Sound(nodes)) ==> (Sound(nodes) <==> StartsInside(old(nodes), i, aligned))
    {
      var k, looked := FirstFit(bytes, aligned, heap);
      i := k;
      if k < |nodes| {
        m := Carve(heap, k, bytes, aligned);
      } else {
        m := AllocBlock(heap, bytes, aligned);
      }
      if m != 0 && old(Sound(nodes)) {
        StillSound(old(View(heap)), View(heap), at, size, max, i, m, bytes, aligned);
      }
    }

    /**
     mp_alloc, and with `aligned` false mp_nalloc. `nested` counts the calls of mp_alloc_large: one that
     makes a record asks for its storage here again, and only where that is no small request once more.
     */
    method Alloc(heap: Heap, bytes: nat, aligned: bool) returns (p: nat, ghost i: nat, ghost m: nat, ghost nested: nat)
      requires Valid(heap)
      modifies this, heap
      ensures Valid(heap) && (p == 0 ==> View(heap) == old(View(heap)) && heap.refused > old(heap.refused))
      ensures p == 0 && bytes <= max ==> FirstRoom(View(heap), |nodes|, bytes, aligned)
      ensures p != 0 && bytes <= max ==> Gave(old(View(heap)), View(heap), size, i, p, bytes, aligned)
      ensures p != 0 && bytes > max ==> max >= RECORD
      ensures p != 0 && bytes > max ==> LargeGiven(old(View(heap)), View(heap), size, p, bytes, i, m)
      ensures p != 0 && bytes <= max && old(Sound(nodes)) ==> (Sound(nodes) <==> StartsInside(old(nodes), i, aligned))
      ensures p != 0 && bytes > max && old(Sound(nodes)) ==> (Sound(nodes) <==> RecordInside(old(View(heap)), i))
      ensures max >= RECORD || bytes <= max ==> nested == if bytes <= max then 0 else 1
      decreases heap.left, 1
    {
      m, nested := 0, 0;
      if bytes <= max {
        p, i := Small(heap, bytes, aligned);
      } else {
        p, i, m, nested := AllocLarge(heap, bytes);
      }
    }

    /** The search of mp_alloc_large: the first of the first five records that names no block. */
    method FindFree(ghost heap: Heap) returns (k: nat, found: bool)
      requires AllReadable(heap)
      ensures if found then FirstFree(large, k) else NoneFree(large)
    {
      k := 0;
      var n := 0;
      while k < |large|
        invariant k <= |large| && n == k < 5
        invariant forall j :: 0 <= j < k ==> large[j].alloc != 0
      {
        Read(heap, k);
        if large[k].alloc == 0 {
          return k, true;
        }
        n := n + 1;
        if n - 1 > 3 {
          return k, false;
        }
        k := k + 1;
      }
      found := false;
    }

    /** The storage of the records has not been freed. */
    ghost predicate AllReadable(heap: Heap)
      reads this, heap
    {
      var ok := Sound(nodes) ==> forall k :: 0 <= k < |large| ==> Covered(heap.blocks, large[k].at, RECORD);
      ok
    }

    lemma Readable(heap: Heap)
      requires Valid(heap)
      ensures AllReadable(heap)
    {
      if Sound(nodes) {
        forall k | 0 <= k < |large|
          ensures Covered(heap.blocks, large[k].at, RECORD)
        {
          RecordCovered(View(heap), at, size, max, k, heap.blocks);
        }
      }
    }

    /** A record may be read. */
    lemma Read(heap: Heap, k: nat)
      requires AllReadable(heap) && k < |large|
      ensures Sound(nodes) ==> Covered(heap.blocks, large[k].at, RECORD)
    {
    }

    /**
     mp_alloc_large: a block that one record names, a record without a block or else a new one. In a pool
     too small for records there is never one, and the request for its storage fails in the end.
     */
    method AllocLarge(heap: Heap, bytes: nat) returns (p: nat, ghost i: nat, ghost m: nat, ghost nested: nat)
      requires Valid(heap) && bytes > max
      modifies this, heap
      ensures Valid(heap) && (p == 0 ==> View(heap) == old(View(heap)) && heap.refused > old(heap.refused))
      ensures p != 0 ==> max >= RECORD
      ensures p != 0 ==> LargeGiven(old(View(heap)), View(heap), size, p, bytes, i, m)
      ensures p != 0 && old(Sound(nodes)) ==> (Sound(nodes) <==> RecordInside(old(View(heap)), i))
      ensures max >= RECORD ==> nested == 1
      decreases heap.left, 0
    {
      i, m, nested := 0, 0, 1;
      p := heap.Allocate(1, bytes);
      if p == 0 {
        return;
      }
      var k, found := FindFreeFor(heap, p, bytes, old(View(heap)));
      if found {
        i := k;
        large := large[k := large[k].(alloc := p)];
        return;
      }
      p, i, m, nested := MakeRecord(heap, p, bytes, old(View(heap)));
      nested := 1 + nested;
    }

    method FindFreeFor(ghost heap: Heap, ghost p: nat, ghost bytes: nat, ghost v: View) returns (k: nat, found: bool)
      requires heap.Valid() && Kept(v, at, size, max) && p != 0 && p !in v.blocks && bytes <= v.left
      requires View(heap) == WithBlock(v, p, bytes)
      ensures if found then FirstFree(large, k) else NoneFree(large)
      ensures found ==> Kept(View(heap).(large := large[k := large[k].(alloc := p)]), at, size, max)
    {
      BlockKept(v, at, size, max, p, bytes);
      Readable(heap);
      k, found := FindFree(heap);
      if found { ReusedKept(View(heap), at, size, max, p, k); }
    }

    /** The block of a failed request is freed: nothing has happened. */
    method GiveBack(heap: Heap, p: nat, ghost bytes: nat, ghost v: View)
      requires heap.Valid() && p != 0 && p !in v.blocks && bytes <= v.left && View(heap) == WithBlock(v, p, bytes)
      modifies heap
      ensures heap.Valid() && View(heap) == v && heap.refused == old(heap.refused)
    {
      heap.Free(p);
      assert heap.blocks == v.blocks;
    }

    /** The end of mp_alloc_large and of mp_memalign: a new record for block `p`, which is freed if there is none. */
    method MakeRecord(heap: Heap, p: nat, bytes: nat, ghost v: View)
        returns (r: nat, ghost i: nat, ghost m: nat, ghost nested: nat)
      requires heap.Valid() && Kept(v, at, size, max) && p != 0 && p !in v.blocks && bytes <= v.left
      requires View(heap) == WithBlock(v, p, bytes)
      modifies this, heap
      ensures Valid(heap) && (r == 0 ==> View(heap) == v && heap.refused > old(heap.refused))
      ensures r != 0 ==> r == p && max >= RECORD && Recorded(v, View(heap), size, p, bytes, i, m)
      ensures r != 0 && Sound(v.nodes) ==> (Sound(nodes) <==> StartsInside(v.nodes, i, true))
      ensures max >= RECORD ==> nested == 0
      decreases heap.left, 2
    {
      BlockKept(v, at, size, max, p, bytes);
      var record;
      record, i, m, nested := Alloc(heap, RECORD, true);
      m := record;
      if record == 0 {
        GiveBack(heap, p, bytes, v);
        return 0, i, m, nested;
      }
      RecordedKept(v, View(heap), at, size, max, p, bytes, i, record);
      PutInFront(heap, record, p);
      r := p;
    }

    method PutInFront(ghost heap: Heap, record: nat, p: nat)
      modifies this`large
      ensures large == [Record(record, p)] + old(large) && View(heap) == old(View(heap)).(large := large)
    {
      large := [Record(record, p)] + large;
    }

    /** mp_memalign: a block aligned as asked that a new record names. */
    method Memalign(heap: Heap, bytes: nat, alignment: nat) returns (p: nat, ghost i: nat, ghost m: nat)
      requires Valid(heap) && alignment > 0
      modifies this, heap
      ensures Valid(heap) && (p == 0 ==> View(heap) == old(View(heap)) && heap.refused > old(heap.refused))
      ensures p % alignment == 0
      ensures p != 0 ==> max >= RECORD && Recorded(old(View(heap)), View(heap), size, p, bytes, i, m)
      ensures p != 0 && old(Sound(nodes)) ==> (Sound(nodes) <==> StartsInside(old(nodes), i, true))
    {
      i, m := 0, 0;
      p := heap.Allocate(alignment, bytes);
      if p == 0 {
        return;
      }
      ghost var nested;
      p, i, m, nested := MakeRecord(heap, p, bytes, old(View(heap)));
    }

    /**
     mp_free: a large block in use goes back, and the one record that named it names none. Anything else
     leaves the pool as it is.
     */
    method Free(heap: Heap, p: nat) returns (ghost k: nat)
      requires Valid(heap)
      modifies this`large, heap
      ensures Valid(heap) && (p !in old(Larges(large)) ==> View(heap) == old(View(heap)))
      ensures p in old(Larges(large)) ==> k < |old(large)| && old(large[k].alloc) == p
      ensures p in old(Larges(large)) ==> large == old(large)[k := old(large[k]).(alloc := 0)]
      ensures p in old(Larges(large)) ==> heap.blocks == old(heap.blocks) - {p}
      ensures Larges(large) == old(Larges(large)) - {p}
    {
      Readable(heap);
      var l := Holder(heap, p);
      k := l;
      if l < |large| {
        assert p != 0 ==> p in Larges(large);
        Drop(heap, l);
      }
    }

    /** The search of mp_free: the first record that names `p`, or behind the last. */
    method Holder(ghost heap: Heap, p: nat) returns (l: nat)
      requires AllReadable(heap)
      ensures l <= |large| && (l < |large| ==> large[l].alloc == p) && forall j :: 0 <= j < l ==> large[j].alloc != p
    {
      l := 0;
      while l < |large|
        invariant l <= |large| && forall j :: 0 <= j < l ==> large[j].alloc != p
      {
        Read(heap, l);
        if large[l].alloc == p {
          return;
        }
        l := l + 1;
      }
    }

    /** The block of record `l` is freed. */
    method Drop(heap: Heap, l: nat)
      requires Valid(heap) && l < |large|
      modifies this`large, heap
      ensures Valid(heap) && large == old(large)[l := old(large[l]).(alloc := 0)]
      ensures old(large[l].alloc) == 0 ==> View(heap) == old(View(heap))
      ensures old(large[l].alloc) != 0 ==> old(large[l].alloc) in old(heap.blocks)
      ensures heap.blocks == old(heap.blocks) - {old(large[l].alloc)}
      ensures Larges(large) == old(Larges(large)) - {old(large[l].alloc)}
    {
      ghost var v := View(heap);
      if large[l].alloc != 0 {
        DroppedKept(v, at, size, max, l, heap.left + heap.blocks[large[l].alloc]);
      } else {
        assert large[l := large[l].(alloc := 0)] == large && heap.blocks - {0} == heap.blocks;
      }
      heap.Free(large[l].alloc);
      large := large[l := large[l].(alloc := 0)];
    }

    /** The loop that mp_reset_pool and mp_destory_pool share: every large block in use is freed, once. */
    method FreeLarges(heap: Heap)
      requires Valid(heap)
      modifies heap
      ensures heap.Valid() && heap.blocks == old(heap.blocks) - Larges(large)
      ensures Owned(nodes, at, size, heap.blocks)
    {
      ghost var v := View(heap);
      var l := 0;
      assert heap.blocks - Larges(large[..0]) == heap.blocks;
      while l < |large|
        invariant l <= |large| && heap.Valid() && heap.blocks == v.blocks - Larges(large[..l])
      {
        FreeLarge(heap, l, v);
        l := l + 1;
      }
      assert large[..|large|] == large;
      OwnedStill(large, |large|, nodes, at, size, v.blocks);
    }

    /** One round of that loop. */
    method FreeLarge(heap: Heap, l: nat, ghost v: View)
      requires heap.Valid() && Kept(v, at, size, max) && v.large == large && v.nodes == nodes && l < |large|
      requires heap.blocks == v.blocks - Larges(large[..l])
      modifies heap
      ensures heap.Valid() && heap.blocks == v.blocks - Larges(large[..l + 1])
    {
      LargeFreed(v, at, size, max, l);
      // the record at `l` is read while its storage is in use
      assert Sound(nodes) ==> Covered(heap.blocks, large[l].at, RECORD);
      if large[l].alloc != 0 {
        heap.Free(large[l].alloc);
      }
    }

    /**
     mp_reset_pool: the large blocks are freed, no records are left and every node is empty. The failure
     counts and `current` stay as they were.
     */
    method Reset(heap: Heap)
      requires Valid(heap)
      modifies this, heap
      ensures Valid(heap) && Sound(nodes) && nodes == Emptied(old(nodes)) && current == old(current)
      ensures large == [] && regions == NoRegions(|nodes|)
      ensures heap.blocks == old(heap.blocks) - old(Larges(large))
      ensures forall bytes, aligned :: FitsEmpty(size, current, bytes, aligned) ==>
        FirstRoom(View(heap), current, bytes, aligned)
    {
      FreeLarges(heap);
      EmptiedKept(old(View(heap)), at, size, max, heap.blocks, heap.left);
      large := [];
      EmptyNodes();
      regions := NoRegions(|nodes|);
      ResetGives(heap);
    }

    /** An empty pool gives what fits in a node from the node at `current`. */
    lemma ResetGives(heap: Heap)
      requires Valid(heap) && regions == NoRegions(|nodes|)
      ensures forall bytes, aligned :: FitsEmpty(size, current, bytes, aligned) ==>
        FirstRoom(View(heap), current, bytes, aligned)
    {
      EndsBelow(View(heap), at, size, max, current);
      forall bytes, aligned | FitsEmpty(size, current, bytes, aligned)
        ensures FirstRoom(View(heap), current, bytes, aligned)
      {
        EmptyGives(View(heap), at, size, max, bytes, aligned);
      }
    }

    method EmptyNodes()
      modifies this`nodes
      ensures nodes == Emptied(old(nodes))
    {
      var h := 0;
      while h < |nodes|
        invariant h <= |nodes| == |old(nodes)|
        invariant forall k :: 0 <= k < |nodes| ==>
          nodes[k] == if k < h then old(nodes)[k].(last := old(nodes)[k].at + NODE) else old(nodes)[k]
      {
        nodes := nodes[h := nodes[h].(last := nodes[h].at + NODE)];
        h := h + 1;
      }
    }

    /** mp_destory_pool: the large blocks, the nodes' blocks and the pool's block go back, each once. */
    method Destroy(heap: Heap)
      requires Valid(heap)
      modifies heap
      ensures heap.Valid() && heap.blocks == old(heap.blocks) - Larges(large) - NodeBlocks(nodes) - {at}
    {
      FreeLarges(heap);
      FreeNodes(heap);
      heap.Free(at);
    }

    method FreeNodes(heap: Heap)
      requires heap.Valid() && Owned(nodes, at, size, heap.blocks)
      modifies heap
      ensures heap.Valid() && heap.blocks == old(heap.blocks) - NodeBlocks(nodes) && at in heap.blocks
    {
      ghost var blocks := heap.blocks;
      var h := 1;
      assert NodeBlocks(nodes[..0]) == {} && blocks - {} == blocks;
      while h < |nodes|
        invariant h >= 1 && heap.Valid()
        invariant heap.blocks == blocks - NodeBlocks(if h <= |nodes| then nodes[..h] else nodes)
      {
        NodeLeft(nodes, at, size, blocks, h);
        // the header at `h` is read before its block is freed
        assert Covered(heap.blocks, nodes[h].at, NODE);
        heap.Free(nodes[h].at);
        h := h + 1;
      }
      assert h <= |nodes| ==> nodes[..h] == nodes;
      NodesNotPool(nodes, at, size, blocks);
    }
  }
}
