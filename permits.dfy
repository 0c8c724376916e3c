/**
 * The permit pool that bounds in-flight remote operations, seen by one caller at a
 * time: a counter of permits held, with ghost totals of acquisitions and releases.
 */
module Permits {

  class PermitPool {
    /** The capacity the pool was created with (the configured `max_parallel`). */
    const capacity: int
    /** Permits currently held. */
    var inFlight: nat
    ghost var acquired: nat
    ghost var released: nat

    /** Every permit ever acquired has been released or is still held. */
    ghost predicate Valid()
      reads this
    {
      acquired == released + inFlight
    }

    constructor (permits: int)
      ensures Valid()
      ensures capacity == permits && inFlight == 0 && acquired == 0 && released == 0
    {
      capacity := permits;
      inFlight := 0;
      acquired := 0;
      released := 0;
    }

    method Acquire()
      requires Valid()
      modifies this
      ensures Valid()
      ensures inFlight == old(inFlight) + 1
      ensures acquired == old(acquired) + 1 && released == old(released)
    {
      inFlight := inFlight + 1;
      acquired := acquired + 1;
    }

    /** Returns a permit; only a permit that is held can be returned. */
    method Release()
      requires Valid() && inFlight > 0
      modifies this
      ensures Valid()
      ensures inFlight == old(inFlight) - 1
      ensures released == old(released) + 1 && acquired == old(acquired)
    {
      inFlight := inFlight - 1;
      released := released + 1;
    }
  }

  /** Between the two states, exactly one permit was acquired and that one was released. */
  twostate predicate OneCycle(p: PermitPool)
    reads p
  {
    p.inFlight == old(p.inFlight) &&
    p.acquired == old(p.acquired) + 1 &&
    p.released == old(p.released) + 1
  }
}
