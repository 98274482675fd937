/** The allocator below the region allocator: malloc, posix_memalign and free. */
module PoolHeap {

  /** User addresses are below this, so that a pointer plus a small size does not wrap. */
  const SPACE: nat := 0x8000_0000_0000

  class Heap {
    /** The blocks in use: address and length. */
    var blocks: map<nat, nat>
    /** The bytes there are still to give. */
    var left: nat
    /** The requests refused so far. */
    ghost var refused: nat

    predicate Room(p: nat, size: nat)
      reads this
    {
      && 0 < p && p + size <= SPACE && p !in blocks
      && forall b :: b in blocks ==> p + size <= b || b + blocks[b] <= p
    }

    /** Blocks do not overlap. */
    ghost predicate Valid()
      reads this
    {
      && (forall b :: b in blocks ==> 0 < b && b + blocks[b] <= SPACE)
      && (forall b, c :: b in blocks && c in blocks && b < c ==> b + blocks[b] <= c)
    }

    /** A new block, or 0 for NULL; which, and where, is the allocator's choice. */
    method Allocate(alignment: nat, size: nat) returns (p: nat)
      requires Valid() && alignment > 0
      modifies this
      ensures Valid() && (p == 0 ==> blocks == old(blocks) && left == old(left))
      ensures refused == old(refused) + if p == 0 then 1 else 0
      ensures p != 0 ==> old(Room(p, size)) && p % alignment == 0 && blocks == old(blocks)[p := size]
      ensures p != 0 ==> size <= old(left) && left == old(left) - size
    {
      p :| p == 0 || (size <= left && Room(p, size) && p % alignment == 0);
      if p != 0 {
        Take(p, size);
      } else {
        refused := refused + 1;
      }
    }

    method Take(p: nat, size: nat)
      requires Valid() && size <= left && Room(p, size)
      modifies this
      ensures Valid() && blocks == old(blocks)[p := size] && left == old(left) - size && refused == old(refused)
    {
      blocks, left := blocks[p := size], left - size;
    }

    /** `free`: a block goes back once; NULL is ignored. */
    method Free(p: nat)
      requires Valid() && (p == 0 || p in blocks)
      modifies this
      ensures Valid() && blocks == old(blocks) - {p}
      ensures left == old(left) + (if p == 0 then 0 else old(blocks)[p]) && refused == old(refused)
    {
      if p != 0 {
        blocks, left := blocks - {p}, left + blocks[p];
      }
    }
  }
}
