/** A byte queue in a linked list of fixed-size chunks.

    Bytes are appended behind the last chunk and taken from behind `firstSkip` in the first one;
    a chunk is dropped as soon as it has been read to its end.  A full last chunk is always
    followed by an empty one. */
module ChunkBuffers {
  import opened Words
  import opened Wrappers

  /** The concatenation of some byte strings. */
  function Flatten(pieces: seq<seq<byte>>): seq<byte> {
    if |pieces| == 0 then [] else pieces[0] + Flatten(pieces[1..])
  }

  lemma {:induction false} FlattenConcat(p: seq<seq<byte>>, q: seq<seq<byte>>)
    ensures Flatten(p + q) == Flatten(p) + Flatten(q)
  {
    if |p| == 0 {
      assert p + q == q;
    } else {
      assert (p + q)[1..] == p[1..] + q;
      FlattenConcat(p[1..], q);
    }
  }

  lemma FlattenOne(x: seq<byte>)
    ensures Flatten([x]) == x
  {
    assert [x][1..] == [];
  }

  lemma FlattenAppend(p: seq<seq<byte>>, x: seq<byte>)
    ensures Flatten(p + [x]) == Flatten(p) + x
  {
    FlattenConcat(p, [x]);
    FlattenOne(x);
  }

  /** What is left of some pieces when the first bytes have been taken from the first one. */
  function Unread(pieces: seq<seq<byte>>, skip: nat): seq<byte> {
    if |pieces| == 0 || skip > |pieces[0]| then [] else pieces[0][skip..] + Flatten(pieces[1..])
  }

  lemma UnreadAppend(p: seq<seq<byte>>, x: seq<byte>, skip: nat)
    requires |p| > 0 ==> skip <= |p[0]|
    requires |p| == 0 ==> skip == 0
    ensures Unread(p + [x], skip) == Unread(p, skip) + x
  {
    if |p| > 0 {
      assert (p + [x])[1..] == p[1..] + [x];
      FlattenAppend(p[1..], x);
    }
  }

  /** Bytes added to the last piece are added to the whole. */
  lemma UnreadExtend(p: seq<seq<byte>>, x: seq<byte>, y: seq<byte>, skip: nat)
    requires if |p| > 0 then skip <= |p[0]| else skip <= |x|
    ensures Unread(p + [x + y], skip) == Unread(p + [x], skip) + y
  {
    if |p| > 0 {
      UnreadAppend(p, x + y, skip);
      UnreadAppend(p, x, skip);
    } else {
      assert ([x + y])[1..] == [] && ([x])[1..] == [];
      assert [] + [x + y] == [x + y] && [] + [x] == [x];
    }
  }

  /** Unread bytes in terms of the whole. */
  lemma UnreadDrop(p: seq<seq<byte>>, skip: nat, count: nat)
    requires |p| > 0 && skip <= |p[0]| && count <= |Unread(p, skip)|
    ensures skip + count <= |Flatten(p)| && Flatten(p)[skip + count..] == Unread(p, skip)[count..]
  {
    assert Flatten(p)[skip..] == p[0][skip..] + Flatten(p[1..]);
  }

  lemma FlattenFirst(p: seq<seq<byte>>)
    requires |p| > 0
    ensures Flatten(p) == p[0] + Flatten(p[1..])
    ensures |p| == 1 ==> Flatten(p) == p[0]
  {
  }

  lemma FlattenEmpty()
    ensures Flatten([]) == []
  {
  }

  lemma UnreadLength(p: seq<seq<byte>>, skip: nat)
    requires if |p| > 0 then skip <= |p[0]| else skip == 0
    ensures |Unread(p, skip)| == |Flatten(p)| - skip
  {
  }

  lemma UnreadNone(skip: nat)
    ensures Unread([], skip) == []
  {
  }

  lemma UnreadNext(p: seq<seq<byte>>, skip: nat)
    requires |p| > 0 && skip <= |p[0]|
    ensures Unread(p, skip) == p[0][skip..] + Unread(p[1..], 0)
  {
    FlattenEmpty();
    if |p| > 1 {
      FlattenFirst(p[1..]);
    }
  }

  class Chunk {
    const data: array<byte>
    var next: Chunk?

    constructor (size: nat)
      ensures fresh(data) && data.Length == size && next == null
    {
      data := new byte[size];
      next := null;
    }
  }

  method CopyBytes(target: array<byte>, at: nat, data: seq<byte>)
    requires at + |data| <= target.Length
    modifies target
    ensures target[..at] == old(target[..at]) && target[at..at + |data|] == data
    ensures target[..at + |data|] == old(target[..at]) + data
  {
    for i := 0 to |data|
      invariant target[..at] == old(target[..at])
      invariant target[at..at + i] == data[..i]
    {
      target[at + i] := data[i];
    }
    assert target[..at + |data|] == target[..at] + target[at..at + |data|];
  }

  class ChunkBuffer {
    const size: nat
    var first: Chunk?
    var last: Chunk?
    var firstSkip: nat
    var lastSize: nat

    /** The chunks in order, the bytes written to each, and all objects the queue is made of. */
    ghost var chunks: seq<Chunk>
    ghost var pieces: seq<seq<byte>>
    ghost var Repr: set<object>

    ghost predicate Owned()
      reads `chunks, `Repr
    {
      this in Repr && forall i :: 0 <= i < |chunks| ==> chunks[i] in Repr && chunks[i].data in Repr
    }

    /** The links form the list of chunks. */
    ghost predicate Linked()
      reads `chunks, `first, `last, `Repr, chunks
    {
      && Owned()
      && (forall i :: 0 <= i < |chunks| ==> chunks[i].data.Length == size)
      && (forall i :: 0 <= i < |chunks| - 1 ==> chunks[i].next == chunks[i + 1])
      && (forall i, j :: 0 <= i < j < |chunks| ==> chunks[i] != chunks[j] && chunks[i].data != chunks[j].data)
      && (if |chunks| == 0 then first == null && last == null
          else first == chunks[0] && last == chunks[|chunks| - 1] && last.next == null)
    }

    /** Every chunk but the last is full. */
    ghost predicate Stored()
      reads `chunks, `pieces, `lastSize, chunks, set c | c in chunks :: c.data
    {
      && |pieces| == |chunks|
      && (forall i :: 0 <= i < |chunks| - 1 ==> chunks[i].data[..] == pieces[i])
      && (|chunks| > 0 ==> lastSize <= chunks[|chunks| - 1].data.Length && chunks[|chunks| - 1].data[..lastSize] == pieces[|chunks| - 1])
    }

    ghost predicate Holds()
      reads this, chunks, set c | c in chunks :: c.data
      requires Linked()
    {
      Stored() && if first == null then firstSkip == 0 else firstSkip <= |pieces[0]|
    }

    /** What holds between operations: the last chunk has room and there are unread bytes in the
        first one, unless it is the only one and empty. */
    ghost predicate Valid()
      reads this, Repr
    {
      && size > 0 && Owned() && Linked() && Holds()
      && (first != null ==> lastSize < size)
      && (first != null ==> firstSkip < |pieces[0]| || (|pieces| == 1 && lastSize == 0))
    }

    /** The queue. */
    ghost function Contents(): seq<byte>
      reads `pieces, `firstSkip
    {
      Unread(pieces, firstSkip)
    }

    constructor (chunkSize: nat)
      requires chunkSize > 0
      ensures Valid() && Repr == {this} && Contents() == [] && size == chunkSize
    {
      size := chunkSize;
      first, last, firstSkip, lastSize := null, null, 0, 0;
      chunks, pieces, Repr := [], [], {this};
    }

    predicate IsEmpty()
      reads this
    {
      first == null || (first == last && lastSize == 0)
    }

    lemma EmptyMeansEmpty()
      requires Valid()
      ensures IsEmpty() <==> Contents() == []
    {
      FirstSize();
    }

    /** How much of the first chunk has been written. */
    lemma FirstSize()
      requires Linked() && Stored()
      ensures Owned() && |pieces| == |chunks| && (first == null <==> |pieces| == 0)
      ensures first != null ==>
        && first in Repr && this in Repr
        && |pieces[0]| == (if first == last then lastSize else size)
        && |pieces[0]| <= first.data.Length && first.data[..|pieces[0]|] == pieces[0]
        && (first == last <==> |pieces| == 1)
    {
      if |chunks| > 1 {
        assert chunks[0] != chunks[|chunks| - 1];
        assert |chunks[0].data[..]| == size;
      }
    }

    /** The unread part of the first chunk. */
    method GetFirstChunk() returns (span: seq<byte>)
      requires Valid()
      ensures span <= Contents()
      ensures span == [] <==> IsEmpty()
      ensures first != null ==> span == pieces[0][firstSkip..]
    {
      FirstSize();
      if first == null {
        return [];
      }
      var end := if first == last then lastSize else size;
      span := first.data[firstSkip..end];
      assert span == first.data[..end][firstSkip..];
    }

    /** Puts a new empty chunk at the end. */
    method Grow()
      requires size > 0 && Linked() && Holds()
      requires first != null ==> lastSize == size
      modifies `first, `last, `lastSize, `chunks, `pieces, `Repr, if last == null then {} else {last}
      ensures Linked() && Holds() && Contents() == old(Contents())
      ensures first != null && lastSize == 0 && firstSkip == old(firstSkip)
      ensures pieces == old(pieces) + [[]] && fresh(Repr - old(Repr))
    {
      hide Linked, Unread;
      Shape();
      var chunk := new Chunk(size);
      Link(chunk);
      lastSize := 0;
      UnreadAppend(pieces, [], firstSkip);
      pieces := pieces + [[]];
    }

    /** Hangs a fresh chunk behind the last one. */
    method Link(chunk: Chunk)
      requires Linked() && chunk.data.Length == size && chunk.next == null && chunk !in Repr && chunk.data !in Repr
      modifies `first, `last, `chunks, `Repr, if last == null then {} else {last}
      ensures chunks == old(chunks) + [chunk] && first != null && last == chunk && Linked()
      ensures Repr == old(Repr) + {chunk, chunk.data}
    {
      if first == null {
        first := chunk;
      } else {
        last.next := chunk;
      }
      last := chunk;
      chunks := chunks + [chunk];
      Repr := Repr + {chunk, chunk.data};
    }

    /** Copies bytes into the room that the last chunk has left. */
    method Fill(data: seq<byte>)
      requires size > 0 && Linked() && Holds() && first != null && lastSize + |data| <= size
      modifies this`lastSize, this`pieces, last.data
      ensures Linked() && Holds() && Contents() == old(Contents()) + data
      ensures lastSize == old(lastSize) + |data| && firstSkip == old(firstSkip)
      ensures |pieces| == old(|pieces|) && |pieces[0]| >= old(|pieces[0]|)
    {
      hide Unread;
      ghost var n := |chunks| - 1;
      CopyBytes(last.data, lastSize, data);
      assert last.data[..lastSize + |data|] == pieces[n] + data;
      assert pieces == pieces[..n] + [pieces[n]];
      UnreadExtend(pieces[..n], pieces[n], data, firstSkip);
      pieces := pieces[..n] + [pieces[n] + data];
      lastSize := lastSize + |data|;
    }

    /** Takes up to count bytes out. */
    method Peek(count: nat) returns (out: seq<byte>)
      requires Valid()
      modifies Repr
      ensures Valid() && Repr == old(Repr)
      ensures out == old(Contents())[..Min(count, |old(Contents())|)]
      ensures Contents() == old(Contents())[|out|..]
    {
      hide Linked, Stored, Unread;
      Shape();
      var left := count;
      out := [];
      while first != null && left > 0
        invariant Valid() && Repr == old(Repr) && this in Repr
        invariant out + Contents() == old(Contents()) && |out| + left == count
        decreases |Contents()|, if first == null then 0 else 1
      {
        EmptyMeansEmpty();
        var span := GetFirstChunk();
        var copied := Min(left, |span|);
        ghost var c := Contents();
        assert c == c[..copied] + c[copied..] && span[..copied] == c[..copied];
        out := out + span[..copied];
        left := left - copied;
        Skip(copied);
        Shape();
      }
      Shape();
      EmptyMeansEmpty();
    }

    /** Takes everything out. */
    method PeekAll() returns (out: seq<byte>)
      requires Valid()
      modifies Repr
      ensures Valid() && Repr == old(Repr)
      ensures out == old(Contents()) && Contents() == [] && first == null
    {
      hide Linked, Stored, Flatten;
      Shape();
      out := [];
      UnreadNone(firstSkip);
      while first != null
        invariant Linked() && Stored() && Repr == old(Repr) && this in Repr
        invariant first == null ==> firstSkip == 0 && |pieces| == 0
        invariant first != null ==> |pieces| > 0 && firstSkip <= |pieces[0]|
        invariant out + Contents() == old(Contents())
        decreases |pieces|
      {
        FirstSize();
        var end := if first == last then lastSize else size;
        assert first.data[firstSkip..end] == first.data[..end][firstSkip..];
        out := out + first.data[firstSkip..end];
        UnreadNext(pieces, firstSkip);
        firstSkip := 0;
        DropFirst();
        FirstSize();
      }
      FirstSize();
    }

    /** Whether the queue holds at least n bytes. */
    method Enough(n: nat) returns (yes: bool)
      requires Valid()
      ensures yes <==> |Contents()| >= n
    {
      hide Flatten;
      var total: int := 0 - firstSkip;
      UnreadLength(pieces, firstSkip);
      assert pieces[0..] == pieces;
      var chunk := first;
      ghost var i := 0;
      while chunk != null
        invariant i <= |chunks| && (chunk == if i < |chunks| then chunks[i] else null)
        invariant total + |Flatten(pieces[i..])| == |Contents()|
        decreases |chunks| - i
      {
        PieceSize(i);
        FlattenFirst(pieces[i..]);
        assert pieces[i..][1..] == pieces[i + 1..];
        total := total + if chunk == last then lastSize else size;
        if total >= n {
          return true;
        }
        chunk := chunk.next;
        i := i + 1;
      }
      assert pieces[i..] == [];
      FlattenEmpty();
      yes := total >= n;
    }

    /** Whether n bytes are enough to take the whole queue. */
    method EnoughFor(n: nat) returns (yes: bool)
      requires Valid()
      ensures yes <==> |Contents()| <= n
    {
      hide Flatten;
      var total: int := 0 - firstSkip;
      UnreadLength(pieces, firstSkip);
      assert pieces[0..] == pieces;
      var chunk := first;
      ghost var i := 0;
      while chunk != null
        invariant i <= |chunks| && (chunk == if i < |chunks| then chunks[i] else null)
        invariant total + |Flatten(pieces[i..])| == |Contents()|
        decreases |chunks| - i
      {
        PieceSize(i);
        FlattenFirst(pieces[i..]);
        assert pieces[i..][1..] == pieces[i + 1..];
        total := total + if chunk == last then lastSize else size;
        if total > n {
          return false;
        }
        chunk := chunk.next;
        i := i + 1;
      }
      assert pieces[i..] == [];
      FlattenEmpty();
      yes := total <= n;
    }

    lemma PieceSize(i: nat)
      requires Linked() && Stored() && i < |chunks|
      ensures |pieces| == |chunks|
      ensures |pieces[i]| == (if chunks[i] == last then lastSize else size)
      ensures chunks[i].next == if i + 1 < |chunks| then chunks[i + 1] else null
    {
      if i < |chunks| - 1 {
        assert |chunks[i].data[..]| == size;
      }
    }

    /** Appends a byte string. */
    method Append(data: seq<byte>)
      requires Valid()
      modifies Repr
      ensures Valid() && fresh(Repr - old(Repr)) && Contents() == old(Contents()) + data
      ensures first != null
    {
      hide Linked, Holds, Unread;
      Shape();
      if first == null {
        Grow();
      }
      Shape();
      var rest := data;
      while |rest| > 0
        invariant Valid() && first != null && this in Repr && fresh(Repr - old(Repr))
        invariant Contents() + rest == old(Contents()) + data
        decreases |rest|
      {
        Shape();
        var room := size - lastSize;
        var count := Min(room, |rest|);
        assert rest == rest[..count] + rest[count..];
        Fill(rest[..count]);
        rest := rest[count..];
        Shape();
        if lastSize == size {
          Grow();
          Shape();
        }
      }
    }

    /** Frees the first chunk. */
    method DropFirst()
      requires Linked() && Stored() && first != null
      modifies `first, `last, `chunks, `pieces, first`next
      ensures Linked() && Stored() && pieces == old(pieces)[1..] && Repr == old(Repr)
    {
      var next := first.next;
      first.next := null;
      first := next;
      chunks := chunks[1..];
      pieces := pieces[1..];
      if next == null {
        last := null;
      }
    }

    /** Takes bytes from the front; chunks that have been read to their end are freed. */
    method Skip(count: nat)
      requires Valid() && first != null && count <= |Contents()|
      modifies Repr
      ensures Valid() && Repr == old(Repr) && Contents() == old(Contents())[count..]
      ensures count == 0 && old(Contents()) == [] ==> first == null
    {
      hide Linked, Stored, Flatten;
      Shape();
      UnreadDrop(pieces, firstSkip, count);
      ghost var goal := Contents()[count..];
      firstSkip := firstSkip + count;
      while true
        invariant Linked() && Stored() && first != null && Repr == old(Repr)
        invariant lastSize < size
        invariant firstSkip <= |Flatten(pieces)| && Flatten(pieces)[firstSkip..] == goal
        decreases |pieces|
      {
        FirstSize();
        var firstSize := if first == last then lastSize else size;
        FlattenFirst(pieces);
        if firstSkip < firstSize {
          break;
        }
        firstSkip := firstSkip - firstSize;
        DropFirst();
        if first == null {
          FirstSize();
          FlattenEmpty();
          assert firstSkip == 0;
          break;
        }
      }
    }

    /** What the list being linked and filled says about its ends. */
    lemma Shape()
      requires Linked() && Holds()
      ensures Owned() && (last != null ==> last in Repr && last.data in Repr)
      ensures |pieces| == |chunks| && (first == null <==> |pieces| == 0) && (first == null <==> last == null)
      ensures first == null ==> firstSkip == 0
      ensures first != null ==> firstSkip <= |pieces[0]| && lastSize <= size
      ensures |pieces| == 1 ==> |pieces[0]| == lastSize
    {
    }
  }
}
