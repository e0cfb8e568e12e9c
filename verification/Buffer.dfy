/** The two-cursor buffer between the archive and its I/O object (src/shared/buffer.rs). */
module Buffer {
  import opened Bytes

  /** A FIFO of bytes: written at `cap`, read at `pos`. */
  class Buf {
    const data: array<byte>
    var cap: nat
    var pos: nat

    ghost predicate Valid()
      reads this
    {
      pos <= cap <= data.Length
    }

    /** The bytes written and not yet read. */
    ghost function Buffered(): (s: seq<byte>)
      reads this, data
      requires Valid()
      ensures |s| == cap - pos
    {
      data[pos..cap]
    }

    /** The space left to write into. Reading does not give space back; only `Clear` does. */
    function Free(): nat
      reads this
      requires Valid()
    {
      data.Length - cap
    }

    constructor (capacity: nat)
      ensures Valid() && fresh(data)
      ensures data.Length == Free() == capacity && Buffered() == []
      ensures cap == 0
    {
      data := new byte[capacity](_ => 0);
      cap, pos := 0, 0;
    }

    method Clear()
      modifies this
      ensures Valid() && cap == 0 && pos == 0
      ensures Buffered() == [] && Free() == data.Length
    {
      cap := 0;
      pos := 0;
    }

    method BufferedBytes() returns (s: seq<byte>)
      requires Valid()
      ensures s == Buffered()
    {
      s := data[pos..cap];
    }

    /** Takes `amt` bytes from the front. */
    method CommitRead(amt: nat)
      requires Valid() && amt <= |Buffered()|
      modifies this`pos
      ensures Valid() && pos == old(pos) + amt
      ensures Buffered() == old(Buffered())[amt..]
    {
      pos := pos + amt;
    }

    /** Admits `amt` bytes already placed in the free space. */
    method CommitWrite(amt: nat)
      requires Valid() && amt <= Free()
      modifies this`cap
      ensures Valid() && cap == old(cap) + amt
      ensures Buffered() == old(Buffered()) + data[old(cap)..cap]
    {
      cap := cap + amt;
    }

    /** Appends as much of the slice as fits. */
    method Fill(slice: seq<byte>) returns (len: nat)
      requires Valid()
      modifies this`cap, data
      ensures Valid()
      ensures len == Min(|slice|, old(Free())) && Free() == old(Free()) - len
      ensures Buffered() == old(Buffered()) + slice[..len]
    {
      len := Min(|slice|, data.Length - cap);
      if len > 0 {
        ghost var before := Buffered();
        forall i | 0 <= i < len {
          data[cap + i] := slice[i];
        }
        assert Buffered() == before;
        CommitWrite(len);
        assert data[old(cap)..cap] == slice[..len];
      }
    }

    /** Appends exactly the longest prefix of the concatenated slices that fits. */
    method FillFromSlices(slices: seq<seq<byte>>) returns (len: nat)
      requires Valid()
      modifies this`cap, data
      ensures Valid()
      ensures len == Min(|Concat(slices)|, old(Free())) && Free() == old(Free()) - len
      ensures Buffered() == old(Buffered()) + Concat(slices)[..len]
    {
      hide Concat;
      len := 0;
      ghost var queued := Buffered();
      assert Concat(slices[..0]) == [] by { ConcatNone(slices); }
      for i := 0 to |slices|
        invariant Valid()
        invariant len == Min(|Concat(slices[..i])|, old(Free())) && Free() == old(Free()) - len
        invariant Buffered() == queued + Concat(slices[..i])[..len]
      {
        ConcatTake(slices, i);
        ghost var before := Concat(slices[..i]);
        var n := Fill(slices[i]);
        PrefixAppend(before, slices[i], len, n);
        assert queued + (before[..len] + slices[i][..n]) == queued + before[..len] + slices[i][..n];
        len := len + n;
      }
      assert slices[..|slices|] == slices;
    }
  }
}
