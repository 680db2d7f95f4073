/** The buffer that collects arbitrary pieces of input into whole blocks (the strategy that does
    not treat the final block specially, as used by Poly1305). */
module AlignmentBuffers {
  import opened Words
  import opened Wrappers

  /** A view of input that is consumed from the front. */
  class BufferSlicer {
    var remaining: seq<byte>

    constructor (input: seq<byte>)
      ensures remaining == input
    {
      remaining := input;
    }

    method Take(count: nat) returns (taken: seq<byte>)
      requires count <= |remaining|
      modifies this
      ensures taken == old(remaining[..count]) && remaining == old(remaining[count..])
    {
      taken := remaining[..count];
      remaining := remaining[count..];
    }
  }

  class AlignmentBuffer {
    var buffer: array<byte>
    var position: nat

    ghost predicate Valid()
      reads this
    {
      buffer.Length > 0 && position <= buffer.Length
    }

    /** The bytes collected so far. */
    ghost function Contents(): seq<byte>
      requires Valid()
      reads this, buffer
    {
      buffer[..position]
    }

    constructor (blockSize: nat)
      requires blockSize > 0
      ensures Valid() && fresh(buffer) && buffer.Length == blockSize && Contents() == []
    {
      buffer := new byte[blockSize](_ => 0);
      position := 0;
    }

    method Clear()
      requires Valid()
      modifies this`position, buffer
      ensures Valid() && Contents() == []
    {
      Zeroize(0);
      position := 0;
    }

    /** Clears the cells from the given index on. */
    method Zeroize(from: nat)
      requires from <= buffer.Length
      modifies buffer
      ensures forall k :: 0 <= k < from ==> buffer[k] == old(buffer[k])
      ensures forall k :: from <= k < buffer.Length ==> buffer[k] == 0
    {
      for i := from to buffer.Length
        invariant forall k :: 0 <= k < from ==> buffer[k] == old(buffer[k])
        invariant forall k :: from <= k < i ==> buffer[k] == 0
      {
        buffer[i] := 0;
      }
    }

    predicate InAlignment()
      reads this
    {
      position == 0
    }

    predicate ReadyToConsume()
      reads this
    {
      position == buffer.Length
    }

    method FillUpWithZeros()
      requires Valid()
      modifies this`position, buffer
      ensures Valid() && ReadyToConsume()
      ensures Contents() == old(Contents()) + seq(buffer.Length - old(position), _ => 0)
    {
      if !ReadyToConsume() {
        Zeroize(position);
        position := buffer.Length;
      }
    }

    method Append(elements: seq<byte>)
      requires Valid() && |elements| <= buffer.Length - position
      modifies this`position, buffer
      ensures Valid() && Contents() == old(Contents()) + elements
    {
      for i := 0 to |elements|
        invariant position == old(position)
        invariant buffer[..position + i] == old(buffer[..position]) + elements[..i]
      {
        buffer[position + i] := elements[i];
      }
      position := position + |elements|;
    }

    method Consume() returns (block: seq<byte>)
      requires Valid() && ReadyToConsume()
      modifies this`position
      ensures Valid() && Contents() == [] && block == old(Contents())
    {
      position := 0;
      block := buffer[..];
    }

    /** All whole blocks that the input still holds. */
    method AlignedDataToProcess(slicer: BufferSlicer) returns (data: seq<byte>, fullBlocks: nat)
      requires Valid() && InAlignment()
      modifies slicer
      ensures fullBlocks == |old(slicer.remaining)| / buffer.Length
      ensures |data| == fullBlocks * buffer.Length
      ensures data + slicer.remaining == old(slicer.remaining)
    {
      fullBlocks := |slicer.remaining| / buffer.Length;
      assert fullBlocks * buffer.Length <= |slicer.remaining|;
      data := slicer.Take(fullBlocks * buffer.Length);
    }

    /** Collects input up to the next block boundary; hands out a block once it is complete.
        Nothing is collected when the buffer is empty and a whole block is waiting. */
    method HandleUnalignedData(slicer: BufferSlicer) returns (block: Option<seq<byte>>)
      requires Valid()
      modifies this`position, buffer, slicer
      ensures Valid()
      ensures var c, r := old(Contents()), old(slicer.remaining);
              if c == [] && |r| >= buffer.Length then
                block == None && Contents() == [] && slicer.remaining == r
              else
                var take := Min(buffer.Length - |c|, |r|);
                && slicer.remaining == r[take..]
                && (if |c| + take == buffer.Length then block == Some(c + r[..take]) && Contents() == []
                    else block == None && Contents() == c + r[..take])
    {
      if InAlignment() && |slicer.remaining| >= buffer.Length {
        return None;
      }
      var taken := slicer.Take(Min(buffer.Length - position, |slicer.remaining|));
      Append(taken);
      if ReadyToConsume() {
        var full := Consume();
        return Some(full);
      }
      return None;
    }
  }
}
