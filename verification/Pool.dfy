/** The fixed-capacity pool that perception stages emit into. */
module Pool {

  class ObjectPool<T> {
    const capacity: nat
    var slots: seq<T>

    ghost predicate Valid()
      reads this
    {
      |slots| <= capacity
    }

    constructor (capacity: nat)
      ensures Valid() && slots == [] && this.capacity == capacity
    {
      this.capacity := capacity;
      slots := [];
    }

    method Clear()
      modifies this
      ensures Valid() && slots == []
    {
      slots := [];
    }

    /** Takes the next slot and writes x to it; refuses when the pool is full. */
    method Acquire(x: T) returns (ok: bool)
      requires Valid()
      modifies this
      ensures Valid()
      ensures ok == (|old(slots)| < capacity)
      ensures slots == if ok then old(slots) + [x] else old(slots)
    {
      if |slots| >= capacity {
        return false;
      }
      slots := slots + [x];
      return true;
    }
  }
}
