/**
 The slice-backed FIFO under the work queue. A Go slice is a window
 `data[off .. off+len]` onto a backing array; its capacity is what remains of
 the array from `off`.
 */
module SliceQueue {

  /** Capacity above which a sparse slice is reallocated. */
  const COMPACT_ABOVE := 256

  class SliceQueue<T> {
    const zero: T
    var data: array<T>
    var off: nat
    var len: nat

    /** The window fits, and no cell outside it keeps an item alive. */
    ghost predicate Valid()
      reads this, data
    {
      && off + len <= data.Length
      && forall i :: 0 <= i < data.Length && !(off <= i < off + len) ==> data[i] == zero
    }

    ghost function Contents(): seq<T>
      requires Valid()
      reads this, data
    {
      data[off..off + len]
    }

    function Capacity(): int
      reads this
    {
      data.Length - off
    }

    constructor (zero: T)
      ensures Valid() && fresh(data)
      ensures this.zero == zero && Contents() == [] && Capacity() == 0
    {
      this.zero := zero;
      data := new T[0];
      off, len := 0, 0;
    }

    function Len(): (n: nat)
      requires Valid()
      reads this, data
      ensures n == |Contents()|
    {
      len
    }

    /** `append`: in place while there is room, otherwise into a larger array; `slack` is the runtime's growth choice. */
    method Push(item: T, slack: nat)
      requires Valid()
      modifies this, data
      ensures Valid() && (data == old(data) || fresh(data))
      ensures Contents() == old(Contents()) + [item]
    {
      if off + len == data.Length {
        var bigger := new T[len + 1 + slack](_ => zero);
        forall i | 0 <= i < len {
          bigger[i] := data[off + i];
        }
        assert bigger[..len] == Contents();
        data, off := bigger, 0;
      }
      data[off + len] := item;
      len := len + 1;
    }

    /** Copies the live window into an array of exactly its length. */
    method Compact()
      requires Valid()
      modifies this
      ensures Valid() && fresh(data) && Contents() == old(Contents()) && Capacity() == |Contents()|
    {
      var compact := new T[len](_ => zero);
      forall i | 0 <= i < len {
        compact[i] := data[off + i];
      }
      assert compact[..len] == Contents();
      data, off := compact, 0;
    }

    /** Returns the head, blanks its cell, and reallocates a large slice that has become sparse. */
    method Pop() returns (item: T)
      requires Valid() && Contents() != []
      modifies this, data
      ensures Valid() && (data == old(data) || fresh(data))
      ensures [item] + Contents() == old(Contents())
      ensures Capacity() <= COMPACT_ABOVE || |Contents()| >= Capacity() / 4
    {
      item := data[off];
      data[off] := zero;
      off, len := off + 1, len - 1;
      assert [item] + Contents() == old(Contents());
      if Capacity() > COMPACT_ABOVE && len < Capacity() / 4 {
        Compact();
      }
    }
  }
}
