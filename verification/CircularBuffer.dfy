/** The ring that holds received bytes, as a queue of bytes. */
module CircularBuffers {
  import opened Words
  import opened Wrappers

  /** Where the caller may write next: a part of the buffer. */
  datatype Tank = Tank(at: nat, length: nat)

  /** The bytes in a ring, the oldest first. */
  ghost function Ring(mem: seq<byte>, size: nat, start: nat, end: nat): (r: seq<byte>)
    requires start < size <= |mem| && end <= size
    ensures |r| == if start <= end then end - start else size - start + end
  {
    if start <= end then mem[start..end] else mem[start..size] + mem[..end]
  }

  /** Bytes taken from a ring in one piece. */
  lemma RingDropsOne(mem: seq<byte>, size: nat, start: nat, end: nat, n: nat)
    requires start <= end <= size <= |mem| && start < size && n <= end - start
    ensures Ring(mem, size, start, end)[..n] == mem[start..start + n]
    ensures start + n < end ==> Ring(mem, size, start + n, end) == Ring(mem, size, start, end)[n..]
    ensures start + n == end ==> Ring(mem, size, start, end)[n..] == []
  {
  }

  /** Bytes that are not in use may change. */
  lemma RingSame(mem: seq<byte>, mem': seq<byte>, size: nat, start: nat, end: nat, at: nat, n: nat)
    requires start < size <= |mem| == |mem'| && end <= size && at + n <= |mem|
    requires if start <= end then end <= at || at + n <= start else end <= at && at + n <= start
    requires mem[..at] == mem'[..at] && mem[at + n..] == mem'[at + n..]
    ensures Ring(mem, size, start, end) == Ring(mem', size, start, end)
  {
    assert forall x :: 0 <= x < at ==> mem[x] == mem[..at][x] && mem'[x] == mem'[..at][x];
    assert forall x :: at + n <= x < |mem| ==> mem[x] == mem[at + n..][x - at - n] && mem'[x] == mem'[at + n..][x - at - n];
  }

  /** More bytes behind the last one. */
  lemma RingGrows(mem: seq<byte>, size: nat, start: nat, end: nat, n: nat)
    requires start < size <= |mem| && end <= size
    requires if start <= end then end + n <= size else end + n < start
    ensures Ring(mem, size, start, end + n) == Ring(mem, size, start, end) + mem[end..end + n]
  {
  }

  /** The end wraps around. */
  lemma RingWraps(mem: seq<byte>, size: nat, start: nat, n: nat)
    requires n < start < size <= |mem|
    ensures Ring(mem, size, start, n) == Ring(mem, size, start, size) + mem[..n]
  {
  }

  /** Bytes taken from the first piece of two, up to all of it. */
  lemma RingDropsFirst(mem: seq<byte>, size: nat, start: nat, end: nat, n: nat)
    requires end < start < size <= |mem| && n <= size - start
    ensures Ring(mem, size, if start + n == size then 0 else start + n, end) == Ring(mem, size, start, end)[n..]
    ensures Ring(mem, size, start, end)[..n] == mem[start..start + n]
  {
  }

  /** All of the first piece taken, and m bytes of the second. */
  lemma RingDropsSecond(mem: seq<byte>, size: nat, start: nat, end: nat, m: nat)
    requires end < start < size <= |mem| && m <= end
    ensures Ring(mem, size, m, end) == Ring(mem, size, start, end)[size - start + m..]
    ensures Ring(mem, size, start, end)[..size - start + m] == mem[start..size] + mem[..m]
  {
  }

  /** datasize. */
  function RingData(size: nat, start: nat, end: nat): int { if start <= end then end - start else (size - start) + end }

  /** get_free_size. */
  function RingFree(size: nat, start: nat, end: nat): int {
    if start <= end then
      var sz2 := start as int - 1;
      (size - end) + if sz2 < 0 then 0 else sz2
    else
      var sz := start as int - end - 1;
      if sz < 0 then 0 else sz
  }

  class CircularBuffer {
    const size: nat
    const data: array<byte>
    var start: nat
    var end: nat

    ghost predicate Valid()
      reads this
    {
      0 < size <= data.Length && start < size && end <= size
    }

    /** The bytes in the buffer, the oldest first. */
    ghost function Contents(): seq<byte>
      reads this, data
      requires Valid()
    {
      Ring(data[..], size, start, end)
    }

    constructor (size: nat)
      requires size > 0
      ensures Valid() && fresh(data) && this.size == size && start == end == 0 && Contents() == []
    {
      this.size := size;
      data := new byte[(size + 15) / 16 * 16];
      start, end := 0, 0;
    }

    predicate IsFull()
      reads this
    {
      (start == 0 && end == size) || end + 1 == start
    }

    method Clear()
      requires 0 < size <= data.Length
      modifies this`start, this`end
      ensures Valid() && Contents() == [] && start == 0 && end == 0
    {
      start, end := 0, 0;
    }

    function DataSize(): int
      reads this
    {
      RingData(size, start, end)
    }

    function FreeSize(): int
      reads this
    {
      RingFree(size, start, end)
    }

    /** datasize is the length of the contents, and with the free space it makes up the size, less one byte as
        soon as the front has moved. */
    lemma SizesAddUp()
      requires Valid()
      ensures DataSize() == |Contents()|
      ensures DataSize() + FreeSize() == if start == 0 then size else size - 1
    {
    }

    /** A full buffer has no free space; one more state has none either. */
    lemma FullMeansNoSpace()
      requires Valid()
      ensures FreeSize() == 0 <==> IsFull() || (start == 1 && end == size)
    {
    }

    lemma FullMeansLittleSpace()
      requires Valid()
      ensures IsFull() ==> FreeSize() <= 1300
    {
      FullMeansNoSpace();
    }

    /** get_1st_free. */
    function FirstFree(): (t: Tank)
      reads this
      requires Valid()
      ensures t.at + t.length <= data.Length && t.length <= FreeSize()
      ensures FreeSize() > 0 ==> t.length > 0
    {
      if start <= end then
        var sz1 := size - end;
        var sz2 := start as int - 1;
        if sz1 == 0 then Tank(0, if sz2 < 0 then 0 else sz2) else Tank(end, sz1)
      else
        var sz := start as int - end - 1;
        Tank(end, if sz < 0 then 0 else sz)
    }

    /** A write into the tank by whoever was given it. */
    method Fill(bytes: seq<byte>)
      requires Valid() && |bytes| <= FirstFree().length
      modifies data
      ensures Contents() == old(Contents())
      ensures data[FirstFree().at..FirstFree().at + |bytes|] == bytes
    {
      var at := FirstFree().at;
      CopyIn(at, bytes);
      hide Ring;
      RingSame(old(data[..]), data[..], size, start, end, at, |bytes|);
    }

    /** memcpy into the buffer. */
    method CopyIn(at: nat, bytes: seq<byte>)
      requires at + |bytes| <= data.Length
      modifies data
      ensures data[at..at + |bytes|] == bytes
      ensures data[..at] == old(data[..at]) && data[at + |bytes|..] == old(data[at + |bytes|..])
      ensures data[..][..at] == old(data[..])[..at] && data[..][at + |bytes|..] == old(data[..])[at + |bytes|..]
    {
      for j := 0 to |bytes|
        invariant data[at..at + j] == bytes[..j]
        invariant forall x :: 0 <= x < data.Length && !(at <= x < at + j) ==> data[x] == old(data[x])
      {
        data[at + j] := bytes[j];
      }
    }

    /** confirm: the first sz bytes of the tank have been written. */
    method Confirm(sz: nat)
      requires Valid() && sz <= FirstFree().length
      modifies this`end
      ensures Valid()
      ensures Contents() == old(Contents()) + data[..][old(FirstFree().at)..old(FirstFree().at) + sz]
      ensures old(start <= end) && sz <= size - old(end) ==> end == old(end) + sz
    {
      hide Ring;
      if start <= end {
        var sz1 := size - end;
        if sz <= sz1 {
          RingGrows(data[..], size, start, end, sz);
          end := end + sz;
          return;
        }
        RingWraps(data[..], size, start, sz);
        end := sz - sz1;
        return;
      }
      RingGrows(data[..], size, start, end, sz);
      end := end + sz;
    }

    /** Bytes written into the tank and confirmed: they join the queue. */
    method Deposit(bytes: seq<byte>)
      requires Valid() && |bytes| <= FirstFree().length
      modifies this`end, data
      ensures Valid() && Contents() == old(Contents()) + bytes
    {
      hide Ring;
      ghost var at := FirstFree().at;
      Fill(bytes);
      assert data[..][at..at + |bytes|] == data[at..at + |bytes|];
      Confirm(|bytes|);
    }

    /** memcpy out of the buffer. */
    method CopyOut(output: array<byte>, at: nat, from: nat, n: nat)
      requires output != data && at + n <= output.Length && from + n <= data.Length
      modifies output
      ensures output[at..at + n] == data[from..from + n]
      ensures output[..at] == old(output[..at]) && output[at + n..] == old(output[at + n..])
    {
      ghost var was := output[..];
      for j := 0 to n
        invariant output[at..at + j] == data[from..from + j]
        invariant output[..at] == was[..at] && output[at + j..] == was[at + j..]
      {
        ghost var rest := output[at + j..];
        output[at + j] := data[from + j];
        assert output[at + j + 1..] == rest[1..];
      }
    }

    /** peek: takes up to outsize bytes from the front. */
    method Peek(output: array<byte>, outsize: nat) returns (n: nat)
      requires Valid() && output != data && outsize <= output.Length
      modifies this`start, this`end, output
      ensures Valid() && n == Min(outsize, |old(Contents())|)
      ensures output[..n] == old(Contents())[..n] && output[n..] == old(output[n..])
      ensures Contents() == old(Contents())[n..]
      ensures old(start <= end) && n < |old(Contents())| ==> start == old(start) + n && end == old(end)
    {
      hide Ring;
      if start <= end {
        n := PeekOne(output, outsize);
      } else {
        n := PeekTwo(output, outsize);
      }
    }

    /** The data in one piece. */
    method PeekOne(output: array<byte>, outsize: nat) returns (n: nat)
      requires Valid() && output != data && outsize <= output.Length && start <= end
      modifies this`start, this`end, output
      ensures Valid() && n == Min(outsize, |old(Contents())|)
      ensures output[..n] == old(Contents())[..n] && output[n..] == old(output[n..])
      ensures Contents() == old(Contents())[n..]
      ensures n < |old(Contents())| ==> start == old(start) + n && end == old(end)
    {
      hide Ring;
      var blocksize := end - start;
      n := if outsize <= blocksize then outsize else blocksize;
      RingDropsOne(data[..], size, start, end, n);
      CopyOut(output, 0, start, n);
      start := start + n;
      if start == end {
        Clear();
      }
    }

    /** The data in two pieces, from start to the end of the buffer and from its beginning. */
    method PeekTwo(output: array<byte>, outsize: nat) returns (n: nat)
      requires Valid() && output != data && outsize <= output.Length && end < start
      modifies this`start, this`end, output
      ensures Valid() && n == Min(outsize, |old(Contents())|)
      ensures output[..n] == old(Contents())[..n] && output[n..] == old(output[n..])
      ensures Contents() == old(Contents())[n..]
    {
      var sz1, sz2 := size - start, end;
      if outsize <= sz1 {
        PeekFirst(output, outsize);
        return outsize;
      }
      var rest := outsize - sz1;
      n := PeekSecond(output, if rest < sz2 then rest else sz2);
    }

    /** All of the first piece and m bytes of the second. */
    method PeekSecond(output: array<byte>, m: nat) returns (n: nat)
      requires Valid() && output != data && size - start + m <= output.Length && m <= end < start
      modifies this`start, output
      ensures Valid() && n == size - old(start) + m && n <= |old(Contents())|
      ensures output[..n] == old(Contents())[..n] && output[n..] == old(output[n..])
      ensures Contents() == old(Contents())[n..]
    {
      hide Ring;
      RingDropsSecond(data[..], size, start, end, m);
      CopyTwo(output, start, size - start, m);
      n := size - start + m;
      start := m;
    }

    method PeekFirst(output: array<byte>, n: nat)
      requires Valid() && output != data && n <= output.Length && end < start && n <= size - start
      modifies this`start, output
      ensures Valid() && n <= |old(Contents())|
      ensures output[..n] == old(Contents())[..n] && output[n..] == old(output[n..])
      ensures Contents() == old(Contents())[n..]
    {
      hide Ring;
      RingDropsFirst(data[..], size, start, end, n);
      CopyOut(output, 0, start, n);
      start := start + n;
      if start == size {
        start := 0;
      }
    }

    /** Both pieces, one behind the other. */
    method CopyTwo(output: array<byte>, from: nat, sz1: nat, sz2: nat)
      requires output != data && sz1 + sz2 <= output.Length && from + sz1 <= data.Length && sz2 <= data.Length
      modifies output
      ensures output[..sz1 + sz2] == data[from..from + sz1] + data[..sz2]
      ensures output[sz1 + sz2..] == old(output[sz1 + sz2..])
    {
      CopyOut(output, 0, from, sz1);
      ghost var was := output[..];
      CopyOut(output, sz1, 0, sz2);
      assert output[..sz1] == was[..sz1];
      assert output[..sz1 + sz2] == output[..sz1] + output[sz1..sz1 + sz2];
      assert was[sz1 + sz2..] == old(output[sz1 + sz2..]);
    }

    /** Move assignment: everything in x is taken over, what was here is dropped. */
    method MoveFrom(x: CircularBuffer)
      requires Valid() && x.Valid() && x != this && x.data != data && x.size == size
      modifies this`start, this`end, data, x`start, x`end
      ensures Valid() && x.Valid()
      ensures Contents() == old(x.Contents()) && x.Contents() == []
    {
      start := 0;
      x.SizesAddUp();
      end := x.Peek(data, size);
    }
  }
}
