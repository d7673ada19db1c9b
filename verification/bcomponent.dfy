/** A fixed backing array with a logical length: the one container every other
    part of the simulation reads and writes (BComponent.cs). */
module Buffers {

  class BComponent<T> {
    /** The backing store. It is the caller's array itself, not a copy. */
    const data: array<T>
    /** The size of the backing store, fixed at construction. */
    const capacity: nat
    /** The number of slots in view; slots at or beyond it are stale. */
    var length: nat

    /** The invariant the source relies on but never checks. */
    ghost predicate Valid()
      reads this
    {
      length <= data.Length && capacity == data.Length
    }

    /** The logical contents: the first `length` slots of the backing store. */
    ghost function Elements(): (s: seq<T>)
      reads this, data
      requires Valid()
      ensures |s| == length
    {
      data[..length]
    }

    constructor (data: array<T>, length: nat)
      requires length <= data.Length
      ensures Valid()
      ensures this.data == data && this.length == length && capacity == data.Length
      ensures Elements() == data[..length]
    {
      this.data := data;
      this.length := length;
      this.capacity := data.Length;
    }
  }
}
