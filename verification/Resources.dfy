/** A ledger of everything the daemon must give back: libfvad instances, curl handles, heap
    blocks. Acquire and Release are the only ways in and out, and Release demands a live entry,
    so code that verifies against the ledger never frees twice. */
module Resources {

  class Heap {
    ghost var live: set<object>
    ghost var released: set<object>

    ghost predicate Valid()
      reads this
    {
      live !! released
    }

    constructor ()
      ensures Valid() && live == {} && released == {}
    {
      live, released := {}, {};
    }

    ghost method Acquire(resource: object)
      requires Valid() && resource !in live && resource !in released
      modifies this
      ensures Valid() && live == old(live) + {resource} && released == old(released)
    {
      live := live + {resource};
    }

    ghost method Release(resource: object)
      requires Valid() && resource in live
      modifies this
      ensures Valid() && live == old(live) - {resource} && released == old(released) + {resource}
    {
      live, released := live - {resource}, released + {resource};
    }
  }
}
