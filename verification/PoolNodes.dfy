/** The nodes of a region allocator: where they lie, how full they are and how often they were passed over. */
module PoolNodes {
  import opened Sequences

  const ALIGNMENT: nat := 32
  const MAX_ALLOC: nat := 4095
  const NODE: nat := 32
  const HEADER: nat := 24
  const RECORD: nat := 16

  /** One more than the largest `size_t`. */
  const WRAP: nat := 0x1_0000_0000_0000_0000

  /** A node header at `at`: the free part of its block runs from `last` to `end`. */
  datatype Node = Node(at: nat, last: nat, end: nat, failed: nat)

  /** A record of a large block: where the record lies, and the block, 0 when there is none. */
  datatype Record = Record(at: nat, alloc: nat)

  /** A region handed out. */
  datatype Region = Region(start: nat, len: nat)

  function AlignUp(n: nat): (m: nat)
    ensures m % ALIGNMENT == 0 && n <= m < n + ALIGNMENT
    ensures n % ALIGNMENT == 0 ==> m == n
  {
    n + (ALIGNMENT - 1) - (n + (ALIGNMENT - 1)) % ALIGNMENT
  }

  /** Where a request starts in a node: aligned for mp_alloc, at once after the last region for mp_nalloc. */
  function Start(node: Node, aligned: bool): nat { if aligned then AlignUp(node.last) else node.last }

  /** `(size_t)(p->end - m) >= size`: the subtraction wraps when `m` is past the end. */
  predicate Fits(m: nat, end: nat, size: nat) { (end - m) % WRAP >= size }

  /**
   The test means that the region ends inside the node exactly when the start is not past the end; past
   the end it succeeds for every small request.
   */
  lemma FitsMeans(m: nat, end: nat, size: nat)
    requires end < WRAP && m < end + ALIGNMENT && size <= MAX_ALLOC
    ensures m <= end ==> (Fits(m, end, size) <==> m + size <= end)
    ensures m > end ==> Fits(m, end, size)
    ensures Fits(m, end, size) ==> (m + size <= end <==> m <= end)
  {
    if m <= end {
      assert (end - m) % WRAP == end - m;
    } else {
      assert (end - m) % WRAP == WRAP + (end - m) by {
        assert 0 <= WRAP + (end - m) < WRAP;
      }
    }
  }

  /** A pool made with 4096 bytes: after 4088 of them the next 512 are given from beyond the end of the block. */
  lemma Overshoot(p: nat)
    requires p % ALIGNMENT == 0 && p < 0x8000_0000_0000
    ensures var head := Node(p + HEADER, p + HEADER + NODE, p + HEADER + NODE + 4096, 0);
      && Fits(Start(head, true), head.end, 4088)
      && var next := head.(last := Start(head, true) + 4088);
         next.last <= next.end && Fits(Start(next, true), next.end, 512) && Start(next, true) > next.end
  {
    var end := p + HEADER + NODE + 4096;
    assert AlignUp(p + 56) == p + 64;
    assert AlignUp(p + 4152) == p + 4160;
    FitsMeans(p + 64, end, 4088);
    FitsMeans(p + 4160, end, 512);
  }

  // ---------- failure counts ----------

  /** The failure count of the node `i` places after `current`, when `n` nodes remain from there. */
  function Failures(n: nat, i: nat): nat { if i + 2 < n then n - 2 - i else 0 }

  /**
   `current` is the head while there are no more than seven nodes, and then the seventh from the end. From there
   on the counts are 0, or k, k-1, ..., 1, 0, 0 with k at most 5.
   */
  ghost predicate Counted(nodes: seq<Node>, current: nat) {
    var ok :=
      && nodes != [] && current == (if |nodes| <= 7 then 0 else |nodes| - 7)
      && forall i :: current <= i < |nodes| ==> nodes[i].failed == Failures(|nodes| - current, i - current);
    ok
  }

  /** The nodes passed over by mp_alloc_block, all from `current` but the last, each count one higher. */
  function Bumped(nodes: seq<Node>, current: nat): (r: seq<Node>)
    requires current < |nodes|
    ensures |r| == |nodes|
  {
    seq(|nodes|, i requires 0 <= i < |nodes| =>
      if current <= i < |nodes| - 1 then nodes[i].(failed := nodes[i].failed + 1) else nodes[i])
  }

  /** `current` after the loop of mp_alloc_block. */
  function NextCurrent(nodes: seq<Node>, current: nat): nat
    requires current < |nodes|
  {
    if nodes[current].failed > 4 then current + 1 else current
  }

  /** Appending a node keeps the shape of the counts; `current` moves on one node once it was passed over six times. */
  lemma CountedAppend(nodes: seq<Node>, current: nat, node: Node)
    requires Counted(nodes, current) && node.failed == 0
    ensures Counted(Bumped(nodes, current) + [node], NextCurrent(nodes, current))
  {
    var n := |nodes| - current;
    assert nodes[current].failed == Failures(n, 0);
  }

  // ---------- places ----------

  /** The nodes of a pool at `at` made with `size`: the head in the pool's block, the others in blocks of their own. */
  ghost predicate Placed(nodes: seq<Node>, at: nat, size: nat) {
    var ok :=
      && nodes != [] && nodes[0].at == at + HEADER && at % ALIGNMENT == 0
      && forall i :: 0 <= i < |nodes| ==>
           && nodes[i].end == nodes[i].at + NODE + size && nodes[i].at + NODE <= nodes[i].last
           && (i > 0 ==> nodes[i].at % ALIGNMENT == 0);
    ok
  }

  /** The regions handed out from a node, in ascending order and apart, up to its `last`. */
  ghost predicate Packed(rs: seq<Region>, node: Node) {
    && (forall i :: 0 <= i < |rs| ==> node.at + NODE <= rs[i].start && rs[i].start + rs[i].len <= node.last)
    && (forall i, j :: 0 <= i < j < |rs| ==> rs[i].start + rs[i].len <= rs[j].start)
  }

  lemma PackedMore(rs: seq<Region>, node: Node, start: nat, len: nat)
    requires Packed(rs, node) && node.at + NODE <= node.last <= start
    ensures Packed(rs + [Region(start, len)], node.(last := start + len))
  {
  }

  /** For every node the regions handed out from it. */
  ghost predicate AllPacked(rss: seq<seq<Region>>, nodes: seq<Node>) {
    var ok :=
      |rss| == |nodes| && forall i :: 0 <= i < |nodes| ==> Packed(rss[i], nodes[i]);
    ok
  }

  function End(r: Region): nat { r.start + r.len }

  /** A start that loses no more than aligning it can cost. */
  predicate Close(end: nat, start: nat) { end <= start < end + ALIGNMENT }

  /** Nothing is left free before a region but what aligning its start costs, and all behind the last one is free. */
  ghost predicate Tight(rs: seq<Region>, at: nat, last: nat) {
    if rs == [] then last == at + NODE
    else
      var front, r := rs[..|rs| - 1], rs[|rs| - 1];
      var end := if front == [] then at + NODE else End(front[|front| - 1]);
      last == End(r) && Close(end, r.start) && Tight(front, at, end)
  }

  lemma TightMore(rs: seq<Region>, at: nat, last: nat, start: nat, len: nat)
    requires Tight(rs, at, last) && Close(last, start)
    ensures Tight(rs + [Region(start, len)], at, start + len)
  {
    assert (rs + [Region(start, len)])[..|rs|] == rs;
  }

  ghost predicate AllTight(rss: seq<seq<Region>>, nodes: seq<Node>) {
    var ok :=
      |rss| == |nodes| && forall i :: 0 <= i < |nodes| ==> Tight(rss[i], nodes[i].at, nodes[i].last);
    ok
  }

  lemma TightCarved(rss: seq<seq<Region>>, nodes: seq<Node>, i: nat, m: nat, bytes: nat)
    requires AllTight(rss, nodes) && i < |nodes| && Close(nodes[i].last, m)
    ensures AllTight(MoreRegions(rss, i, m, bytes), Carved(nodes, i, m, bytes))
  {
    TightMore(rss[i], nodes[i].at, nodes[i].last, m, bytes);
  }

  lemma TightGrown(rss: seq<seq<Region>>, nodes: seq<Node>, current: nat, m: nat, bytes: nat, size: nat)
    requires AllTight(rss, nodes) && current < |nodes| && NODE <= m
    ensures AllTight(rss + [[Region(m, bytes)]], Grown(nodes, current, m, bytes, size))
  {
    var bumped := Bumped(nodes, current);
    forall i | 0 <= i < |nodes|
      ensures Tight(rss[i], bumped[i].at, bumped[i].last)
    {
      assert Tight(rss[i], nodes[i].at, nodes[i].last);
    }
    TightFirst(m - NODE, bytes);
  }

  lemma TightFirst(at: nat, bytes: nat)
    ensures Tight([Region(at + NODE, bytes)], at, at + NODE + bytes)
  {
    assert [Region(at + NODE, bytes)][..0] == [];
  }

  /** The nodes are where they were. */
  ghost predicate SamePlaces(nodes: seq<Node>, nodes': seq<Node>) {
    |nodes'| == |nodes| && forall i :: 0 <= i < |nodes| ==> nodes'[i].at == nodes[i].at && nodes'[i].end == nodes[i].end
  }

  /** Every node is in a block of its own. */
  ghost predicate Owned(nodes: seq<Node>, at: nat, size: nat, blocks: map<nat, nat>) {
    var ok :=
      && at in blocks && blocks[at] == size + HEADER + NODE
      && (forall i :: 0 < i < |nodes| ==> NodeBlock(nodes[i].at, at, size, blocks))
      && (forall i, j :: 0 < i < j < |nodes| ==> nodes[i].at != nodes[j].at);
    ok
  }

  ghost predicate NodeBlock(p: nat, at: nat, size: nat, blocks: map<nat, nat>) {
    p in blocks && blocks[p] == NODE + size && p != at
  }

  /** The block is in use and no node's. */
  ghost predicate Apart(p: nat, nodes: seq<Node>, at: nat, blocks: map<nat, nat>) {
    p in blocks && p != at && forall i :: 0 < i < |nodes| ==> nodes[i].at != p
  }

  /** A record lies in a region handed out for it. */
  ghost predicate Stored(r: Record, rss: seq<seq<Region>>) {
    exists i :: 0 <= i < |rss| && Region(r.at, RECORD) in rss[i]
  }

  /** Every large block in use is named by one record only, and is no node's block. */
  ghost predicate Named(large: seq<Record>, nodes: seq<Node>, at: nat, blocks: map<nat, nat>) {
    var ok :=
      && (forall i :: 0 <= i < |large| && large[i].alloc != 0 ==> Apart(large[i].alloc, nodes, at, blocks))
      && (forall i, j :: 0 <= i < j < |large| && large[i].alloc != 0 ==> large[i].alloc != large[j].alloc);
    ok
  }

  ghost predicate AllStored(large: seq<Record>, rss: seq<seq<Region>>) {
    var ok :=
      forall i :: 0 <= i < |large| ==> Stored(large[i], rss);
    ok
  }

  // a region carved from the node at `i`

  function Carved(nodes: seq<Node>, i: nat, m: nat, bytes: nat): seq<Node>
    requires i < |nodes|
  {
    nodes[i := nodes[i].(last := m + bytes)]
  }

  function MoreRegions(rss: seq<seq<Region>>, i: nat, m: nat, bytes: nat): seq<seq<Region>>
    requires i < |rss|
  {
    rss[i := rss[i] + [Region(m, bytes)]]
  }

  lemma CarvedNodes(nodes: seq<Node>, current: nat, at: nat, size: nat, rss: seq<seq<Region>>, i: nat,
                    m: nat, bytes: nat)
    requires Placed(nodes, at, size) && Counted(nodes, current) && AllPacked(rss, nodes)
    requires i < |nodes| && nodes[i].last <= m
    ensures var nodes' := Carved(nodes, i, m, bytes);
      && Placed(nodes', at, size) && Counted(nodes', current) && AllPacked(MoreRegions(rss, i, m, bytes), nodes')
      && SamePlaces(nodes, nodes')
  {
    PackedMore(rss[i], nodes[i], m, bytes);
  }

  lemma SameOwned(nodes: seq<Node>, nodes': seq<Node>, at: nat, size: nat, blocks: map<nat, nat>, large: seq<Record>)
    requires SamePlaces(nodes, nodes') && Owned(nodes, at, size, blocks) && Named(large, nodes, at, blocks)
    ensures Owned(nodes', at, size, blocks) && Named(large, nodes', at, blocks)
  {
    forall i | 0 <= i < |large| && large[i].alloc != 0
      ensures Apart(large[i].alloc, nodes', at, blocks)
    {
      assert Apart(large[i].alloc, nodes, at, blocks);
    }
  }

  lemma StillStored(large: seq<Record>, rss: seq<seq<Region>>, rss': seq<seq<Region>>)
    requires AllStored(large, rss) && |rss| <= |rss'| && forall i :: 0 <= i < |rss| ==> rss[i] <= rss'[i]
    ensures AllStored(large, rss')
  {
    forall k | 0 <= k < |large|
      ensures Stored(large[k], rss')
    {
      assert Stored(large[k], rss);
      var i :| 0 <= i < |rss| && Region(large[k].at, RECORD) in rss[i];
      assert Region(large[k].at, RECORD) in rss'[i];
    }
  }

  // a node appended

  /** The nodes after one whose first region is at `m` was appended. */
  function Grown(nodes: seq<Node>, current: nat, m: nat, bytes: nat, size: nat): seq<Node>
    requires current < |nodes| && NODE <= m
  {
    Bumped(nodes, current) + [Node(m - NODE, m + bytes, m + size, 0)]
  }

  lemma AppendedNodes(nodes: seq<Node>, current: nat, at: nat, size: nat, rss: seq<seq<Region>>, block: nat, bytes: nat)
    requires Placed(nodes, at, size) && Counted(nodes, current) && AllPacked(rss, nodes) && block % ALIGNMENT == 0
    ensures var node := Node(block, block + NODE + bytes, block + NODE + size, 0);
      var nodes' := Bumped(nodes, current) + [node];
      && Placed(nodes', at, size) && AllPacked(rss + [[Region(block + NODE, bytes)]], nodes')
      && Counted(nodes', NextCurrent(nodes, current))
  {
    var node := Node(block, block + NODE + bytes, block + NODE + size, 0);
    CountedAppend(nodes, current, node);
    var bumped := Bumped(nodes, current);
    forall i | 0 <= i < |nodes|
      ensures Packed(rss[i], bumped[i])
    {
      assert Packed(rss[i], nodes[i]);
    }
  }

  lemma AppendedOwned(nodes: seq<Node>, node: Node, at: nat, size: nat, blocks: map<nat, nat>, large: seq<Record>)
    requires Owned(nodes, at, size, blocks) && Named(large, nodes, at, blocks) && node.at !in blocks
    ensures var nodes', blocks' := nodes + [node], blocks[node.at := NODE + size];
      Owned(nodes', at, size, blocks') && Named(large, nodes', at, blocks')
  {
    var nodes', blocks' := nodes + [node], blocks[node.at := NODE + size];
    forall i | 0 < i < |nodes'|
      ensures NodeBlock(nodes'[i].at, at, size, blocks')
      ensures i < |nodes| ==> nodes'[i].at != node.at
    {
      assert i < |nodes| ==> NodeBlock(nodes[i].at, at, size, blocks);
    }
    forall i | 0 <= i < |large| && large[i].alloc != 0
      ensures Apart(large[i].alloc, nodes', at, blocks')
    {
      assert Apart(large[i].alloc, nodes, at, blocks);
    }
  }

  lemma GrownNodes(nodes: seq<Node>, current: nat, at: nat, size: nat, rss: seq<seq<Region>>, large: seq<Record>,
                   blocks: map<nat, nat>, m: nat, bytes: nat)
    requires Placed(nodes, at, size) && Counted(nodes, current) && AllPacked(rss, nodes) && AllStored(large, rss)
    requires Owned(nodes, at, size, blocks) && Named(large, nodes, at, blocks)
    requires NODE <= m && (m - NODE) % ALIGNMENT == 0 && m - NODE !in blocks
    ensures
      var nodes', rss' := Grown(nodes, current, m, bytes, size), rss + [[Region(m, bytes)]];
      var blocks' := blocks[m - NODE := NODE + size];
      && Placed(nodes', at, size) && AllPacked(rss', nodes') && AllStored(large, rss')
      && Counted(nodes', NextCurrent(nodes, current))
      && Owned(nodes', at, size, blocks') && Named(large, nodes', at, blocks')
  {
    AppendedNodes(nodes, current, at, size, rss, m - NODE, bytes);
    SameOwned(nodes, Bumped(nodes, current), at, size, blocks, large);
    AppendedOwned(Bumped(nodes, current), Node(m - NODE, m + bytes, m + size, 0), at, size, blocks, large);
    StillStored(large, rss, rss + [[Region(m, bytes)]]);
  }

  // ---------- the whole pool ----------

  /** A pool, the regions handed out since it was made or last reset, and the blocks in use below it. */
  datatype View = View(
    current: nat, nodes: seq<Node>, large: seq<Record>, regions: seq<seq<Region>>, blocks: map<nat, nat>, left: nat)

  /** What every operation keeps. A pool too small for records has none. */
  ghost predicate Kept(v: View, at: nat, size: nat, max: nat) {
    var ok :=
      && max == (if size < MAX_ALLOC then size else MAX_ALLOC) && (max < RECORD ==> v.large == [])
      && Placed(v.nodes, at, size) && Counted(v.nodes, v.current)
      && AllPacked(v.regions, v.nodes) && AllTight(v.regions, v.nodes)
      && AllStored(v.large, v.regions) && Owned(v.nodes, at, size, v.blocks) && Named(v.large, v.nodes, at, v.blocks);
    ok
  }

  /** No region runs past its node: what is kept by every request that starts inside its node. */
  ghost predicate Sound(nodes: seq<Node>) { forall i :: 0 <= i < |nodes| ==> nodes[i].last <= nodes[i].end }

  /** The guard of a small request: its node, unless that is a new one, has not ended before the start. */
  predicate StartsInside(nodes: seq<Node>, i: nat, aligned: bool) {
    i < |nodes| ==> Start(nodes[i], aligned) <= nodes[i].end
  }

  /** The first node with room is the one at `i`, or there is none and `i` is the number of nodes. */
  ghost predicate FirstRoom(v: View, i: nat, bytes: nat, aligned: bool) {
    && v.current <= i <= |v.nodes|
    && (forall j :: v.current <= j < i ==> !Fits(Start(v.nodes[j], aligned), v.nodes[j].end, bytes))
    && (i < |v.nodes| ==> Fits(Start(v.nodes[i], aligned), v.nodes[i].end, bytes))
  }

  /**
   A region of `bytes` at `m` was given from the node at `i`: the first with room from `current` on, or
   else a new one in a new block.
   */
  ghost predicate Gave(v: View, v': View, size: nat, i: nat, m: nat, bytes: nat, aligned: bool) {
    var ok :=
      && FirstRoom(v, i, bytes, aligned) && v.current < |v.nodes| == |v.regions|
      && if i < |v.nodes| then
           && m == Start(v.nodes[i], aligned)
           && v' == v.(nodes := Carved(v.nodes, i, m, bytes), regions := MoreRegions(v.regions, i, m, bytes))
         else
           && NODE <= m && (m - NODE) % ALIGNMENT == 0 && m - NODE !in v.blocks && NODE + size <= v.left
           && v' == View(NextCurrent(v.nodes, v.current), Grown(v.nodes, v.current, m, bytes, size), v.large,
                         v.regions + [[Region(m, bytes)]], v.blocks[m - NODE := NODE + size], v.left - (NODE + size));
    ok
  }

  lemma GaveKept(v: View, v': View, at: nat, size: nat, max: nat, i: nat, m: nat, bytes: nat, aligned: bool)
    requires Kept(v, at, size, max) && Gave(v, v', size, i, m, bytes, aligned)
    ensures Kept(v', at, size, max)
    ensures v.current <= v'.current <= v.current + 1 && v'.current < |v'.nodes| <= v'.current + 7
  {
    if i < |v.nodes| {
      CarvedNodes(v.nodes, v.current, at, size, v.regions, i, m, bytes);
      SameOwned(v.nodes, v'.nodes, at, size, v.blocks, v.large);
      StillStored(v.large, v.regions, v'.regions);
      TightCarved(v.regions, v.nodes, i, m, bytes);
    } else {
      GrownNodes(v.nodes, v.current, at, size, v.regions, v.large, v.blocks, m, bytes);
      TightGrown(v.regions, v.nodes, v.current, m, bytes, size);
    }
  }

  /**
   A small region lies inside the payload of its node exactly when it starts there, that is unless
   aligning the end of what was given before steps over the end of the node. A new node always has room.
   */
  lemma GaveInside(v: View, v': View, at: nat, size: nat, max: nat, i: nat, m: nat, bytes: nat, aligned: bool)
    requires Kept(v, at, size, max) && Sound(v.nodes) && Gave(v, v', size, i, m, bytes, aligned) && bytes <= max
    requires forall j :: 0 <= j < |v.nodes| ==> v.nodes[j].end < WRAP
    ensures i < |v'.nodes| && v'.nodes[i].at + NODE <= m
    ensures m + bytes <= v'.nodes[i].end <==> StartsInside(v.nodes, i, aligned)
    ensures Sound(v'.nodes) <==> StartsInside(v.nodes, i, aligned)
  {
    if i < |v.nodes| {
      CarvedInside(v.nodes, at, size, i, bytes, aligned);
    } else {
      GrownInside(v.nodes, v.current, m, bytes, size);
    }
  }

  /** mp_alloc gives multiples of 32; mp_nalloc, which does not align, always starts inside. */
  lemma GaveAligned(v: View, v': View, size: nat, i: nat, m: nat, bytes: nat, aligned: bool)
    requires Gave(v, v', size, i, m, bytes, aligned) && Sound(v.nodes)
    ensures if aligned then m % 32 == 0 else StartsInside(v.nodes, i, aligned)
  {
  }

  /**
   Two requests in a row: unless an earlier node has room, the second lies directly behind the first, but for
   aligning its start, as long as it fits there.
   */
  lemma NextBehind(v: View, v': View, v'': View, at: nat, size: nat, max: nat,
                   i: nat, m: nat, bytes: nat, aligned: bool, i': nat, m': nat, bytes': nat, aligned': bool)
    requires Kept(v, at, size, max) && Gave(v, v', size, i, m, bytes, aligned)
    requires Gave(v', v'', size, i', m', bytes', aligned') && i < |v'.nodes| && v'.nodes[i].end < WRAP
    requires (if aligned' then AlignUp(m + bytes) else m + bytes) + bytes' <= v'.nodes[i].end
    ensures i' <= i && (i' == i ==> m' == if aligned' then AlignUp(m + bytes) else m + bytes)
  {
    GaveLast(v, v', size, i, m, bytes, aligned);
    HasRoom(v', i, bytes', aligned');
  }

  lemma GaveLast(v: View, v': View, size: nat, i: nat, m: nat, bytes: nat, aligned: bool)
    requires Gave(v, v', size, i, m, bytes, aligned) && i < |v'.nodes|
    ensures v'.nodes[i].last == m + bytes && v'.current <= |v.nodes| && (i < |v.nodes| ==> v'.current <= i)
  {
  }

  lemma HasRoom(v: View, i: nat, bytes: nat, aligned: bool)
    requires i < |v.nodes| && v.nodes[i].end < WRAP && Start(v.nodes[i], aligned) + bytes <= v.nodes[i].end
    ensures Fits(Start(v.nodes[i], aligned), v.nodes[i].end, bytes)
  {
    var start := Start(v.nodes[i], aligned);
    assert (v.nodes[i].end - start) % WRAP == v.nodes[i].end - start;
  }

  /** What an empty node has room for: all its bytes, but for 8 that aligning costs in the head. */
  predicate FitsEmpty(size: nat, i: nat, bytes: nat, aligned: bool) {
    bytes + (if aligned && i == 0 then 8 else 0) <= size
  }

  /** A node from which nothing was handed out gives what it has room for from its front. */
  lemma EmptyGives(v: View, at: nat, size: nat, max: nat, bytes: nat, aligned: bool)
    requires Kept(v, at, size, max) && v.regions[v.current] == [] && FitsEmpty(size, v.current, bytes, aligned)
    requires v.nodes[v.current].end < WRAP
    ensures FirstRoom(v, v.current, bytes, aligned)
    ensures Start(v.nodes[v.current], aligned) ==
      v.nodes[v.current].at + 32 + if aligned && v.current == 0 then 8 else 0
  {
    var node := v.nodes[v.current];
    assert Tight(v.regions[v.current], node.at, node.last);
    if aligned { EmptyStart(node.at, at, v.current); }
    assert (node.end - Start(node, aligned)) % WRAP == node.end - Start(node, aligned);
  }

  lemma EmptyStart(node: nat, at: nat, i: nat)
    requires if i == 0 then node == at + HEADER && at % ALIGNMENT == 0 else node % ALIGNMENT == 0
    ensures AlignUp(node + NODE) == node + NODE + if i == 0 then 8 else 0
  {
    var start := node + NODE + if i == 0 then 8 else 0;
    assert start % ALIGNMENT == 0;
  }

  lemma CarvedInside(nodes: seq<Node>, at: nat, size: nat, i: nat, bytes: nat, aligned: bool)
    requires Placed(nodes, at, size) && i < |nodes| && Fits(Start(nodes[i], aligned), nodes[i].end, bytes)
    requires bytes <= MAX_ALLOC && nodes[i].end < WRAP && Sound(nodes)
    ensures var m := Start(nodes[i], aligned); var nodes' := Carved(nodes, i, m, bytes);
      && nodes'[i].at + NODE <= m && nodes'[i].end == nodes[i].end && (m + bytes <= nodes[i].end <==> m <= nodes[i].end)
      && (Sound(nodes') <==> m <= nodes[i].end)
  {
    var m := Start(nodes[i], aligned);
    FitsMeans(m, nodes[i].end, bytes);
    assert Carved(nodes, i, m, bytes)[i].last == m + bytes;
  }

  lemma GrownInside(nodes: seq<Node>, current: nat, m: nat, bytes: nat, size: nat)
    requires current < |nodes| && NODE <= m && bytes <= size
    requires Sound(nodes)
    ensures var nodes' := Grown(nodes, current, m, bytes, size);
      && |nodes'| == |nodes| + 1 && nodes'[|nodes|] == Node(m - NODE, m + bytes, m + size, 0) && Sound(nodes')
  {
  }

  /** No two regions share a byte, and each lies inside its node's part of a block in use. */
  lemma RegionsApart(v: View, at: nat, size: nat, max: nat, i: nat, j: nat, k: nat, l: nat)
    requires Kept(v, at, size, max) && Sound(v.nodes)
    requires i < |v.regions| && j < |v.regions[i]| && k < |v.regions| && l < |v.regions[k]| && (i, j) != (k, l)
    requires forall b, c :: b in v.blocks && c in v.blocks && b < c ==> b + v.blocks[b] <= c
    ensures var r, s := v.regions[i][j], v.regions[k][l];
      r.start + r.len <= s.start || s.start + s.len <= r.start
  {
    RegionHome(v, at, size, max, i, j);
    RegionHome(v, at, size, max, k, l);
  }

  /** The block a node lies in. */
  function Home(nodes: seq<Node>, at: nat, i: nat): nat
    requires i < |nodes|
  {
    if i == 0 then at else nodes[i].at
  }

  lemma RegionHome(v: View, at: nat, size: nat, max: nat, i: nat, j: nat)
    requires Kept(v, at, size, max) && Sound(v.nodes) && i < |v.regions| && j < |v.regions[i]|
    ensures i < |v.nodes| && Home(v.nodes, at, i) in v.blocks
    ensures var r, n, b := v.regions[i][j], v.nodes[i], Home(v.nodes, at, i);
      && b <= n.at < n.at + NODE <= r.start && r.start + r.len <= n.end == b + v.blocks[b]
      && Packed(v.regions[i], n)
  {
    assert Packed(v.regions[i], v.nodes[i]);
    if i > 0 { assert NodeBlock(v.nodes[i].at, at, size, v.blocks); }
  }

  // ---------- large blocks ----------

  /** The large blocks in use, as the records name them. */
  ghost function Larges(large: seq<Record>): set<nat> {
    set i | 0 <= i < |large| && large[i].alloc != 0 :: large[i].alloc
  }

  /** The pool after a block that no record names yet has been allocated. */
  function WithBlock(v: View, p: nat, bytes: nat): View
    requires bytes <= v.left
  {
    v.(blocks := v.blocks[p := bytes], left := v.left - bytes)
  }

  /** Block `p` is in use, is no node's and is named by no record. */
  ghost predicate Unnamed(v: View, at: nat, p: nat) {
    p != 0 && Apart(p, v.nodes, at, v.blocks) && p !in Larges(v.large)
  }

  lemma BlockKept(v: View, at: nat, size: nat, max: nat, p: nat, bytes: nat)
    requires Kept(v, at, size, max) && p != 0 && p !in v.blocks && bytes <= v.left
    ensures Kept(WithBlock(v, p, bytes), at, size, max) && Unnamed(WithBlock(v, p, bytes), at, p)
  {
    var blocks' := v.blocks[p := bytes];
    forall i | 0 < i < |v.nodes|
      ensures NodeBlock(v.nodes[i].at, at, size, blocks') && v.nodes[i].at != p
    {
      assert NodeBlock(v.nodes[i].at, at, size, v.blocks);
    }
    forall i | 0 <= i < |v.large| && v.large[i].alloc != 0
      ensures Apart(v.large[i].alloc, v.nodes, at, blocks') && v.large[i].alloc != p
    {
      assert Apart(v.large[i].alloc, v.nodes, at, v.blocks);
    }
  }

  /** A record without a block names one. */
  lemma ReusedKept(v: View, at: nat, size: nat, max: nat, p: nat, k: nat)
    requires Kept(v, at, size, max) && Unnamed(v, at, p) && k < |v.large| && v.large[k].alloc == 0
    ensures var v' := v.(large := v.large[k := v.large[k].(alloc := p)]);
      Kept(v', at, size, max) && Larges(v'.large) == Larges(v.large) + {p}
  {
    var large' := v.large[k := v.large[k].(alloc := p)];
    forall i | 0 <= i < |large'|
      ensures Stored(large'[i], v.regions)
    {
      assert Stored(v.large[i], v.regions);
    }
    assert forall i :: 0 <= i < |large'| && i != k ==> large'[i] == v.large[i];
    assert large'[k].alloc == p;
    forall x | x in Larges(v.large)
      ensures x in Larges(large')
    {
      var i :| 0 <= i < |v.large| && v.large[i].alloc != 0 && v.large[i].alloc == x;
      assert large'[i].alloc == x;
    }
  }

  /** A new record, in a region handed out for it, names a block. */
  lemma PrependedKept(v: View, at: nat, size: nat, max: nat, p: nat, m: nat)
    requires Kept(v, at, size, max) && Unnamed(v, at, p) && Stored(Record(m, p), v.regions) && max >= RECORD
    ensures var v' := v.(large := [Record(m, p)] + v.large);
      Kept(v', at, size, max) && Larges(v'.large) == Larges(v.large) + {p}
  {
    StoredFirst(Record(m, p), v.large, v.regions);
    LargesFirst(Record(m, p), v.large);
    NamedFirst(Record(m, p), v.large, v.nodes, at, v.blocks);
  }

  lemma StoredFirst(r: Record, large: seq<Record>, rss: seq<seq<Region>>)
    requires AllStored(large, rss) && Stored(r, rss)
    ensures AllStored([r] + large, rss)
  {
    forall i | 0 <= i < |[r] + large|
      ensures Stored(([r] + large)[i], rss)
    {
      if i > 0 { assert Stored(large[i - 1], rss); }
    }
  }

  lemma LargesFirst(r: Record, large: seq<Record>)
    requires r.alloc != 0
    ensures Larges([r] + large) == Larges(large) + {r.alloc}
  {
    var large' := [r] + large;
    assert large'[0].alloc == r.alloc;
    forall x | x in Larges(large)
      ensures x in Larges(large')
    {
      var i :| 0 <= i < |large| && large[i].alloc != 0 && large[i].alloc == x;
      assert large'[i + 1].alloc == x;
    }
  }

  lemma NamedFirst(r: Record, large: seq<Record>, nodes: seq<Node>, at: nat, blocks: map<nat, nat>)
    requires Named(large, nodes, at, blocks) && Apart(r.alloc, nodes, at, blocks) && r.alloc !in Larges(large)
    ensures Named([r] + large, nodes, at, blocks)
  {
    var large' := [r] + large;
    forall i | 0 <= i < |large'| && large'[i].alloc != 0
      ensures Apart(large'[i].alloc, nodes, at, blocks) && (i > 0 ==> large'[i].alloc != r.alloc)
    {
      if i > 0 {
        assert Apart(large[i - 1].alloc, nodes, at, blocks);
        assert large[i - 1].alloc in Larges(large);
      }
    }
  }

  /** A small request leaves a block unnamed, and its region is recorded. */
  lemma GaveRecord(v: View, v': View, at: nat, size: nat, i: nat, m: nat, p: nat)
    requires Unnamed(v, at, p) && Gave(v, v', size, i, m, RECORD, true) && |v.nodes| == |v.regions|
    ensures Unnamed(v', at, p) && Stored(Record(m, p), v'.regions)
  {
    assert Region(m, RECORD) in v'.regions[i];
    forall k | 0 < k < |v'.nodes|
      ensures v'.nodes[k].at != p
    {
      assert k < |v.nodes| ==> v'.nodes[k].at == v.nodes[k].at;
    }
  }

  /** The block of record `k` is freed. */
  lemma DroppedKept(v: View, at: nat, size: nat, max: nat, k: nat, left: nat)
    requires Kept(v, at, size, max) && k < |v.large| && v.large[k].alloc != 0
    ensures var p := v.large[k].alloc;
      var v' := v.(large := v.large[k := v.large[k].(alloc := 0)], blocks := v.blocks - {p}, left := left);
      p in v.blocks && Kept(v', at, size, max) && Larges(v'.large) == Larges(v.large) - {p}
  {
    var p := v.large[k].alloc;
    var large', blocks' := v.large[k := v.large[k].(alloc := 0)], v.blocks - {p};
    assert Apart(p, v.nodes, at, v.blocks);
    forall i | 0 < i < |v.nodes|
      ensures NodeBlock(v.nodes[i].at, at, size, blocks')
    {
      assert NodeBlock(v.nodes[i].at, at, size, v.blocks);
    }
    forall i | 0 <= i < |large'|
      ensures Stored(large'[i], v.regions)
      ensures large'[i].alloc != 0 ==> i != k && large'[i].alloc != p && Apart(large'[i].alloc, v.nodes, at, blocks')
    {
      assert Stored(v.large[i], v.regions);
      assert i != k && v.large[i].alloc != 0 ==> Apart(v.large[i].alloc, v.nodes, at, v.blocks);
    }
    LargesDropped(v.large, k);
  }

  lemma LargesDropped(large: seq<Record>, k: nat)
    requires k < |large| && large[k].alloc != 0
    requires forall i :: 0 <= i < |large| && i != k ==> large[i].alloc != large[k].alloc
    ensures Larges(large[k := large[k].(alloc := 0)]) == Larges(large) - {large[k].alloc}
  {
    var large' := large[k := large[k].(alloc := 0)];
    forall x | x in Larges(large) && x != large[k].alloc
      ensures x in Larges(large')
    {
      var i :| 0 <= i < |large| && large[i].alloc != 0 && large[i].alloc == x;
      assert large'[i].alloc == x;
    }
  }

  ghost predicate Covered(blocks: map<nat, nat>, a: nat, bytes: nat) {
    exists b :: b in blocks && b <= a && a + bytes <= b + blocks[b]
  }

  /** As long as the nodes' blocks are in use, so is the storage of every record. */
  lemma RecordCovered(v: View, at: nat, size: nat, max: nat, k: nat, blocks: map<nat, nat>)
    requires Kept(v, at, size, max) && Sound(v.nodes) && k < |v.large| && Owned(v.nodes, at, size, blocks)
    ensures Covered(blocks, v.large[k].at, RECORD)
  {
    assert Stored(v.large[k], v.regions);
    var i :| 0 <= i < |v.regions| && Region(v.large[k].at, RECORD) in v.regions[i];
    assert Packed(v.regions[i], v.nodes[i]);
    var b := Home(v.nodes, at, i);
    if i > 0 { assert NodeBlock(v.nodes[i].at, at, size, blocks); }
    assert b in blocks && b <= v.large[k].at && v.large[k].at + RECORD <= b + blocks[b];
  }

  // ---------- giving everything back ----------

  lemma LargesMore(large: seq<Record>, l: nat)
    requires l < |large|
    ensures Larges(large[..l + 1]) == Larges(large[..l]) + if large[l].alloc != 0 then {large[l].alloc} else {}
  {
    var a, b := large[..l], large[..l + 1];
    assert b[l] == large[l] && forall i :: 0 <= i < l ==> b[i] == a[i];
    forall x | x in Larges(a)
      ensures x in Larges(b)
    {
      var i :| 0 <= i < |a| && a[i].alloc != 0 && a[i].alloc == x;
      assert b[i].alloc == x;
    }
  }

  /** The block of record `l` is in use until it is freed, and no record before it names it. */
  lemma LargeLeft(large: seq<Record>, nodes: seq<Node>, at: nat, blocks: map<nat, nat>, l: nat)
    requires Named(large, nodes, at, blocks) && l < |large| && large[l].alloc != 0
    ensures large[l].alloc in blocks && large[l].alloc !in Larges(large[..l])
  {
    assert Apart(large[l].alloc, nodes, at, blocks);
  }

  /** Freeing large blocks leaves the nodes' blocks in use. */
  lemma OwnedStill(large: seq<Record>, l: nat, nodes: seq<Node>, at: nat, size: nat, blocks: map<nat, nat>)
    requires Named(large, nodes, at, blocks) && Owned(nodes, at, size, blocks) && l <= |large|
    ensures Owned(nodes, at, size, blocks - Larges(large[..l]))
  {
    var gone := Larges(large[..l]);
    forall x | x in gone
      ensures x != at && forall i :: 0 < i < |nodes| ==> nodes[i].at != x
    {
      var i :| 0 <= i < l && large[i].alloc == x && large[i].alloc != 0;
      assert Apart(x, nodes, at, blocks);
    }
    forall i | 0 < i < |nodes|
      ensures NodeBlock(nodes[i].at, at, size, blocks - gone)
    {
      assert NodeBlock(nodes[i].at, at, size, blocks);
    }
  }

  /** Every node empty again; what the nodes failed at, and `current`, stays. */
  function Emptied(nodes: seq<Node>): (r: seq<Node>)
    ensures |r| == |nodes|
  {
    seq(|nodes|, i requires 0 <= i < |nodes| => nodes[i].(last := nodes[i].at + NODE))
  }

  ghost function NoRegions(n: nat): (r: seq<seq<Region>>)
    ensures |r| == n
  {
    seq(n, i => [])
  }

  lemma EmptiedKept(v: View, at: nat, size: nat, max: nat, blocks: map<nat, nat>, left: nat)
    requires Kept(v, at, size, max) && Owned(v.nodes, at, size, blocks)
    ensures Kept(View(v.current, Emptied(v.nodes), [], NoRegions(|v.nodes|), blocks, left), at, size, max)
    ensures Sound(Emptied(v.nodes))
  {
    var nodes' := Emptied(v.nodes);
    forall i | 0 < i < |nodes'|
      ensures NodeBlock(nodes'[i].at, at, size, blocks)
    {
      assert NodeBlock(v.nodes[i].at, at, size, blocks);
    }
  }

  /** The blocks of the nodes after the head. */
  ghost function NodeBlocks(nodes: seq<Node>): set<nat> { set i | 0 < i < |nodes| :: nodes[i].at }

  lemma NodesNotPool(nodes: seq<Node>, at: nat, size: nat, blocks: map<nat, nat>)
    requires Owned(nodes, at, size, blocks)
    ensures at in blocks && at !in NodeBlocks(nodes)
  {
    assert forall i :: 0 < i < |nodes| ==> NodeBlock(nodes[i].at, at, size, blocks);
  }

  lemma NodeLeft(nodes: seq<Node>, at: nat, size: nat, blocks: map<nat, nat>, h: nat)
    requires Owned(nodes, at, size, blocks) && 0 < h < |nodes|
    ensures var left := blocks - NodeBlocks(nodes[..h]);
      && nodes[h].at in left && left[nodes[h].at] == NODE + size
      && blocks - NodeBlocks(nodes[..h + 1]) == left - {nodes[h].at}
      && Covered(left, nodes[h].at, NODE)
  {
    assert NodeBlock(nodes[h].at, at, size, blocks);
    var a, b := nodes[..h], nodes[..h + 1];
    assert forall i :: 0 <= i < h ==> a[i] == nodes[i] == b[i];
    assert b[h] == nodes[h];
    assert NodeBlocks(b) == NodeBlocks(a) + {nodes[h].at} by {
      forall x | x in NodeBlocks(a)
        ensures x in NodeBlocks(b)
      {
        var i :| 0 < i < |a| && a[i].at == x;
        assert b[i].at == x;
      }
    }
  }

  /** One round of the loop that frees the large blocks: the record it reads and the block it frees are still there. */
  lemma LargeFreed(v: View, at: nat, size: nat, max: nat, l: nat)
    requires Kept(v, at, size, max) && l < |v.large|
    ensures var p, left := v.large[l].alloc, v.blocks - Larges(v.large[..l]);
      && (Sound(v.nodes) ==> Covered(left, v.large[l].at, RECORD))
      && (p != 0 ==> p in left)
      && v.blocks - Larges(v.large[..l + 1]) == if p != 0 then left - {p} else left
  {
    OwnedStill(v.large, l, v.nodes, at, size, v.blocks);
    if Sound(v.nodes) { RecordCovered(v, at, size, max, l, v.blocks - Larges(v.large[..l])); }
    LargesMore(v.large, l);
    if v.large[l].alloc != 0 { LargeLeft(v.large, v.nodes, at, v.blocks, l); }
  }
}
