/** The critical sections of BoundedBuffer::put and get on the ring array. */
module RingBuffer {
  import opened BoundedBuffer

  class Buffer<T> {
    const data: array<T>
    var head: int
    var n: int

    ghost predicate Valid()
      reads this, data
    {
      data.Length <= 0x8000_0000 && 0 <= n <= data.Length && 0 <= head && (0 < data.Length ==> head < data.Length)
    }

    /** The buffered values, oldest first. */
    ghost function Contents(): seq<T>
      reads this, data
      requires Valid()
    {
      Ring(data[..], head, n)
    }

    constructor (slots: array<T>)
      requires slots.Length <= 0x8000_0000
      ensures Valid() && data == slots && Contents() == []
    {
      data, head, n := slots, 0, 0;
    }

    /** put once a slot and the lock are held. */
    method Put(t: T)
      requires Valid() && n < data.Length
      modifies this, data
      ensures Valid() && Contents() == old(Contents()) + [t]
    {
      RingPut(data[..], head, n, t);
      data[WriteIndex(head, n, data.Length)] := t;
      n := n + 1;
    }

    /** get once an item and the lock are held. */
    method Get() returns (out: T)
      requires Valid() && 0 < n
      modifies this
      ensures Valid() && old(Contents()) == [out] + Contents()
    {
      RingTake(data[..], head, n);
      out := data[head];
      head := (head + 1) % data.Length;
      n := n - 1;
    }
  }
}
