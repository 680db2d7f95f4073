/** Sending over a non-blocking socket with an overflow queue. */
module TcpPipes {
  import opened Words
  import opened Wrappers
  import opened ChunkBuffers

  datatype SendResult = Ok | BufferFull | Fail

  /** What one send call on the socket gives: an error, "not now", or how many bytes it took. */
  datatype SocketAnswer = Broken | WouldBlock | Took(count: nat)

  /** The socket: it takes any part of what it is offered. */
  class Socket {
    var script: seq<SocketAnswer>
    /** Everything the socket has taken. */
    ghost var given: seq<byte>

    constructor (future: seq<SocketAnswer>)
      ensures script == future && given == []
    {
      script, given := future, [];
    }

    /** The next answer to an offer of n bytes: "not now" once the future is used up. */
    function Next(n: nat): SocketAnswer
      reads this
    {
      if script == [] then WouldBlock
      else if script[0].Took? then Took(Min(script[0].count, n))
      else script[0]
    }

    method Send(data: seq<byte>) returns (r: SocketAnswer)
      modifies this
      ensures r == old(Next(|data|)) && script == if old(script) == [] then [] else old(script)[1..]
      ensures r.Took? ==> r.count <= |data| && given == old(given) + data[..r.count]
      ensures !r.Took? ==> given == old(given)
    {
      if script == [] {
        return WouldBlock;
      }
      r := script[0];
      script := script[1..];
      if r.Took? {
        r := Took(Min(r.count, |data|));
        given := given + data[..r.count];
      }
    }
  }

  class TcpPipe {
    const socket: Socket
    const outbuf: ChunkBuffer
    ghost var Repr: set<object>

    ghost predicate Valid()
      reads this, Repr
    {
      && {this, socket, outbuf} <= Repr && outbuf.Repr <= Repr
      && this !in outbuf.Repr && socket !in outbuf.Repr
      && outbuf.Valid()
    }

    /** Bytes given to the socket, then bytes still waiting. */
    ghost function Sent(): seq<byte>
      requires Valid()
      reads this, Repr
    {
      socket.given + outbuf.Contents()
    }

    constructor (s: Socket)
      ensures Valid() && fresh(Repr - {s}) && socket == s && Sent() == s.given
    {
      hide ChunkBuffer.Valid;
      socket := s;
      outbuf := new ChunkBuffer(16384);
      new;
      Repr := {this, socket, outbuf} + outbuf.Repr;
    }

    /** Whether the socket breaks when it is asked next. */
    ghost predicate Breaks()
      reads this, socket
    {
      socket.Next(0) == Broken
    }

    /** Sends, or only asks whether sending is possible if there is no data.  The answer is Fail exactly when the
        socket is asked and breaks; otherwise nothing is lost, duplicated or reordered, and the answer is Ok exactly
        when everything has gone to the socket. */
    method Send(data: Option<seq<byte>>) returns (r: SendResult)
      requires Valid()
      modifies Repr
      ensures Valid() && fresh(Repr - old(Repr))
      ensures r != Fail ==> Sent() == old(Sent()) + (if data.Some? then data.value else [])
      ensures r == Ok ==> outbuf.Contents() == []
      ensures r == BufferFull ==> outbuf.Contents() != []
      ensures r == Fail <==> data.Some? && (data.value != [] || old(outbuf.Contents()) != []) && old(Breaks())
      ensures r == Fail ==> socket.given == old(socket.given)
      ensures data.None? ==> unchanged(socket)
    {
      hide ChunkBuffer.Valid;
      outbuf.EmptyMeansEmpty();
      if data.None? {
        return if outbuf.IsEmpty() then Ok else BufferFull;
      }
      if !outbuf.IsEmpty() {
        r := SendQueued(data.value);
        return;
      }
      if |data.value| == 0 {
        return Ok;
      }
      r := SendDirect(data.value);
    }

    /** Something is waiting already: queue behind it and offer the first chunk. */
    method SendQueued(data: seq<byte>) returns (r: SendResult)
      requires Valid() && outbuf.Contents() != []
      modifies Repr
      ensures Valid() && fresh(Repr - old(Repr))
      ensures r != Fail ==> Sent() == old(Sent()) + data
      ensures r == Ok ==> outbuf.Contents() == []
      ensures r == BufferFull ==> outbuf.Contents() != []
      ensures (r == Fail <==> old(Breaks())) && (r == Fail ==> socket.given == old(socket.given))
    {
      hide ChunkBuffer.Valid;
      if |data| > 0 {
        outbuf.Append(data);
        Repr := Repr + outbuf.Repr;
      }
      r := OfferFirst();
    }

    method OfferFirst() returns (r: SendResult)
      requires Valid() && outbuf.Contents() != []
      modifies Repr
      ensures Valid() && Repr == old(Repr)
      ensures r != Fail ==> Sent() == old(Sent())
      ensures r == Ok ==> outbuf.Contents() == []
      ensures r == BufferFull ==> outbuf.Contents() != []
      ensures (r == Fail <==> old(Breaks())) && (r == Fail ==> socket.given == old(socket.given))
    {
      hide ChunkBuffer.Valid;
      outbuf.EmptyMeansEmpty();
      var span := outbuf.GetFirstChunk();
      var answer := socket.Send(span);
      if answer.Broken? {
        return Fail;
      }
      if answer.WouldBlock? {
        return BufferFull;
      }
      SplitContents(span, outbuf.Contents(), answer.count);
      outbuf.Skip(answer.count);
      outbuf.EmptyMeansEmpty();
      r := if outbuf.IsEmpty() then Ok else BufferFull;
    }

    lemma SplitContents(span: seq<byte>, all: seq<byte>, count: nat)
      requires span <= all && count <= |span|
      ensures count <= |all| && all == span[..count] + all[count..]
      ensures forall given: seq<byte> :: (given + span[..count]) + all[count..] == given + all
    {
    }

    /** Nothing is waiting: offer the data itself and queue the rest. */
    method SendDirect(data: seq<byte>) returns (r: SendResult)
      requires Valid() && outbuf.Contents() == []
      modifies Repr
      ensures Valid() && fresh(Repr - old(Repr))
      ensures r != Fail ==> Sent() == old(Sent()) + data
      ensures r == Ok ==> outbuf.Contents() == []
      ensures r == BufferFull ==> outbuf.Contents() != []
      ensures (r == Fail <==> old(Breaks())) && (r == Fail ==> socket.given == old(socket.given))
    {
      hide ChunkBuffer.Valid;
      var answer := socket.Send(data);
      if answer.Broken? {
        return Fail;
      }
      var count := if answer.WouldBlock? then 0 else answer.count;
      if count < |data| {
        outbuf.Append(data[count..]);
        Repr := Repr + outbuf.Repr;
        return BufferFull;
      }
      return Ok;
    }
  }
}
