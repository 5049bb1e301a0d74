/**
 The allocator shim's release function (src/main_test.cpp, `deallocate`):
 a null pointer is ignored, any other pointer is freed once.

 The C heap is modelled by the set of live block addresses and the log of
 every `free` call; pointers are addresses, and address 0 is the null pointer.
 */
module Allocation {
  class Heap {
    /** Addresses of blocks handed out and not yet freed. */
    var live: set<nat>
    /** Every block released, in the order of the `free` calls. */
    var freed: seq<nat>

    /** No live block is at the null address, no block is freed twice, and a freed block is no longer live. */
    ghost predicate Valid()
      reads this
    {
      0 !in live &&
      (forall i, j :: 0 <= i < j < |freed| ==> freed[i] != freed[j]) &&
      (forall i :: 0 <= i < |freed| ==> freed[i] !in live)
    }

    constructor (blocks: set<nat>)
      requires 0 !in blocks
      ensures Valid() && live == blocks && freed == []
    {
      live := blocks;
      freed := [];
    }

    /** `deallocate(ptr, state)`: a no-op on null, otherwise exactly one `free` of a live block. */
    method Deallocate(ptr: nat)
      requires Valid()
      requires ptr != 0 ==> ptr in live
      modifies this
      ensures Valid()
      ensures ptr == 0 ==> live == old(live) && freed == old(freed)
      ensures ptr != 0 ==> live == old(live) - {ptr} && freed == old(freed) + [ptr]
    {
      if ptr == 0 {
        return;
      }
      live := live - {ptr};
      freed := freed + [ptr];
    }
  }
}
