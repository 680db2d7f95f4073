/** Receiving over a non-blocking socket into a ring. */
module TcpReceivers {
  import opened Words
  import opened Wrappers
  import opened CircularBuffers

  /** What the system says when it is asked about the socket, and what a receive call then gives. */
  datatype Event = Broken | Quiet | Refused | NotNow | Closed | Arrived(count: nat)

  /** The socket: the bytes that are still to come, what its answers will be, and how many it has given. */
  class Socket {
    const script: seq<Event>
    var asked: nat
    var incoming: seq<byte>

    constructor (script: seq<Event>, incoming: seq<byte>)
      ensures this.script == script && this.incoming == incoming && asked == 0
    {
      this.script, this.incoming, asked := script, incoming, 0;
    }

    /** Answer number k: broken once the future is used up. */
    function Answer(k: int): Event { if 0 <= k < |script| then script[k] else Broken }

    /** The answer given last. */
    function Last(): Event
      reads this
    {
      Answer(asked - 1)
    }

    method Ask() returns (e: Event)
      modifies this`asked
      ensures asked == old(asked) + 1 && e == Last()
    {
      e := Answer(asked);
      asked := asked + 1;
    }

    /** Up to `max` of the bytes that have arrived. */
    method Take(count: nat, max: nat) returns (bytes: seq<byte>)
      modifies this`incoming
      ensures |bytes| == Min(Min(count, max), |old(incoming)|)
      ensures bytes + incoming == old(incoming)
    {
      var n := Min(Min(count, max), |incoming|);
      bytes := incoming[..n];
      incoming := incoming[n..];
    }
  }

  /** An answer that ends the connection: an error, or a receive call that gives no bytes. */
  predicate Ends(e: Event, incoming: seq<byte>) {
    e == Broken || e == Refused || e == Closed || (e.Arrived? && (e.count == 0 || incoming == []))
  }

  const RCVBUF := 16384 * 3

  class TcpReceiver {
    const socket: Socket
    const rcvbuf: CircularBuffer

    ghost predicate Valid()
      reads this, rcvbuf
    {
      rcvbuf.Valid() && rcvbuf.size == RCVBUF
    }

    /** Bytes in the ring, then bytes still to come. */
    ghost function Pending(): seq<byte>
      reads this, socket, rcvbuf, rcvbuf.data
      requires Valid()
    {
      rcvbuf.Contents() + socket.incoming
    }

    constructor (s: Socket)
      ensures Valid() && fresh(rcvbuf) && fresh(rcvbuf.data) && socket == s
      ensures rcvbuf.Contents() == [] && rcvbuf.start == rcvbuf.end == 0
    {
      socket := s;
      rcvbuf := new CircularBuffer(RCVBUF);
    }

    /** rcv_all: reads until nothing is there or the ring has little space left.  Bytes go from the socket to
        the ring in order; none is lost even when the connection ends. */
    method RcvAll() returns (ok: bool)
      requires Valid()
      modifies socket, rcvbuf, rcvbuf.data
      ensures Valid() && Pending() == old(Pending()) && old(rcvbuf.Contents()) <= rcvbuf.Contents()
      ensures old(rcvbuf.IsFull()) ==> ok && unchanged(socket)
      ensures !old(rcvbuf.IsFull()) ==> socket.asked > old(socket.asked)
      ensures !old(rcvbuf.IsFull()) && ok ==>
                socket.Last() == Quiet || socket.Last() == NotNow || (!socket.Last().Broken? && rcvbuf.FreeSize() <= 1300)
      ensures !ok ==> Ends(socket.Last(), socket.incoming)
      ensures socket.asked > |socket.script| && socket.asked > old(socket.asked) ==> !ok
      ensures old(rcvbuf.FreeSize()) <= 1300 ==>
                unchanged(socket`incoming) && unchanged(rcvbuf) && socket.asked <= old(socket.asked) + 1
    {
      hide CircularBuffer.Valid;
      if rcvbuf.IsFull() {
        return true;
      }
      while true
        invariant Valid() && Pending() == old(Pending()) && old(rcvbuf.Contents()) <= rcvbuf.Contents()
        invariant socket.asked >= old(socket.asked)
        invariant socket.asked > old(socket.asked) ==> old(rcvbuf.FreeSize()) > 1300 && socket.asked <= |socket.script|
        invariant socket.asked == old(socket.asked) ==> unchanged(socket`incoming) && unchanged(rcvbuf)
        decreases |socket.script| - socket.asked
      {
        var e := socket.Ask();
        if e == Broken {
          return false;
        }
        if e == Quiet || rcvbuf.FreeSize() <= 1300 {
          return true;
        }
        if e == NotNow {
          return true;
        }
        if e == Refused || e == Closed {
          return false;
        }
        var n := ReadSome(e.count);
        if n == 0 {
          return false;
        }
        if rcvbuf.FreeSize() < 1300 {
          return true;
        }
      }
    }

    /** One receive call into the first free part of the ring. */
    method ReadSome(count: nat) returns (n: nat)
      requires Valid() && rcvbuf.FreeSize() > 0
      modifies socket`incoming, rcvbuf`end, rcvbuf.data
      ensures Valid() && Pending() == old(Pending()) && old(rcvbuf.Contents()) <= rcvbuf.Contents()
      ensures n == 0 <==> count == 0 || old(socket.incoming) == []
      ensures n == 0 ==> socket.incoming == old(socket.incoming)
    {
      hide CircularBuffer.Valid, CircularBuffer.FreeSize, CircularBuffer.FirstFree, Ring;
      var tank := rcvbuf.FirstFree();
      var bytes := socket.Take(count, Min(tank.length, 16384));
      rcvbuf.Deposit(bytes);
      n := |bytes|;
      ghost var was := old(rcvbuf.Contents());
      assert (was + bytes) + socket.incoming == was + (bytes + socket.incoming);
    }

    /** recv of at most `max` bytes: -1 when there were too few and the connection has ended, otherwise the next
        bytes in order. */
    method Recv(output: array<byte>, max: nat) returns (r: int)
      requires Valid() && output != rcvbuf.data && max <= output.Length
      modifies socket, rcvbuf, rcvbuf.data, output
      ensures Valid() && -1 <= r <= max
      ensures r == -1 ==> Pending() == old(Pending()) && output[..] == old(output[..])
      ensures r == -1 ==>
                |old(rcvbuf.Contents())| < max && socket.asked > old(socket.asked) && Ends(socket.Last(), socket.incoming)
      ensures r >= 0 ==> output[..r] + Pending() == old(Pending()) && output[r..] == old(output[r..])
      ensures r >= Min(max, |old(rcvbuf.Contents())|) || r == -1
      ensures 0 <= r < max ==> rcvbuf.Contents() == []
    {
      hide CircularBuffer.Valid;
      rcvbuf.SizesAddUp();
      if rcvbuf.DataSize() < max {
        var ok := RcvAll();
        if !ok {
          return -1;
        }
      }
      rcvbuf.SizesAddUp();
      if rcvbuf.DataSize() > 0 {
        r := Take(output, max);
        return;
      }
      assert output[..0] + Pending() == Pending();
      return 0;
    }

    method Take(output: array<byte>, max: nat) returns (n: nat)
      requires Valid() && output != rcvbuf.data && max <= output.Length
      modifies rcvbuf`start, rcvbuf`end, output
      ensures Valid() && n == Min(max, |old(rcvbuf.Contents())|)
      ensures output[..n] + Pending() == old(Pending()) && output[n..] == old(output[n..])
      ensures rcvbuf.Contents() == old(rcvbuf.Contents())[n..]
    {
      hide CircularBuffer.Valid;
      n := rcvbuf.Peek(output, max);
    }

    /** recv of exactly n bytes: all of them, or -1 when there were too few and the connection has ended.  `turns` is
        how often the loop may wait for more; it gives up nothing when it has done so, so None stands for a loop that
        is still waiting. */
    method RecvExact(output: array<byte>, n: nat, turns: nat) returns (r: Option<int>)
      requires Valid() && output != rcvbuf.data && n <= output.Length
      modifies socket, rcvbuf, rcvbuf.data, output
      ensures Valid() && (r == None || r == Some(-1) || r == Some(n))
      ensures r != Some(n) ==> Pending() == old(Pending()) && output[..] == old(output[..])
      ensures r == Some(n) ==> output[..n] + Pending() == old(Pending()) && output[n..] == old(output[n..])
      ensures |old(rcvbuf.Contents())| >= n ==> r == Some(n) && unchanged(socket)
      ensures r == Some(-1) ==> socket.asked > old(socket.asked) && Ends(socket.Last(), socket.incoming)
      ensures r == None ==> rcvbuf.IsFull() || old(socket.asked) + turns < |socket.script|
      ensures old(rcvbuf.FreeSize()) <= 1300 && |old(rcvbuf.Contents())| < n ==>
                r != Some(n) && socket.incoming == old(socket.incoming) && socket.asked <= old(socket.asked) + turns + 1
    {
      hide CircularBuffer.Valid, CircularBuffer.FreeSize, CircularBuffer.IsFull;
      rcvbuf.SizesAddUp();
      var k := 0;
      while rcvbuf.DataSize() < n
        invariant k <= turns && Valid() && Pending() == old(Pending()) && output[..] == old(output[..])
        invariant rcvbuf.DataSize() == |rcvbuf.Contents()|
        invariant |old(rcvbuf.Contents())| >= n ==> unchanged(socket) && |rcvbuf.Contents()| >= n
        invariant old(rcvbuf.FreeSize()) <= 1300 ==>
                    unchanged(socket`incoming) && unchanged(rcvbuf) && socket.asked <= old(socket.asked) + k
        invariant rcvbuf.IsFull() || socket.asked >= old(socket.asked) + k
        decreases turns - k, if rcvbuf.DataSize() < n then 1 else 0
      {
        rcvbuf.FullMeansLittleSpace();
        var ok := RcvAll();
        if !ok {
          return Some(-1);
        }
        rcvbuf.SizesAddUp();
        if rcvbuf.DataSize() < n {
          if k == turns {
            return None;
          }
          k := k + 1;
        }
      }
      var m := Take(output, n);
      return Some(m);
    }
  }

  /** The most bytes that can be asked for exactly without the ring being too full to read the last of them. */
  const EXACT_LIMIT := RCVBUF - 1301

  /** While fewer bytes are there than asked for, rcv_all reads: in every state of the ring exactly when no more
      than the limit are asked for. */
  lemma ReadsWhileShort(n: nat)
    ensures (forall start: nat, end: nat ::
              start < RCVBUF && end <= RCVBUF && RingData(RCVBUF, start, end) < n ==> RingFree(RCVBUF, start, end) > 1300)
       <==> n <= EXACT_LIMIT
  {
    if n > RCVBUF {
      assert RingData(RCVBUF, 0, RCVBUF) < n && RingFree(RCVBUF, 0, RCVBUF) <= 1300;
    } else if n > EXACT_LIMIT {
      assert RingData(RCVBUF, RCVBUF + 1 - n, RCVBUF) < n && RingFree(RCVBUF, RCVBUF + 1 - n, RCVBUF) <= 1300;
    }
  }

  /** Beyond the limit the loop can wait for ever, with more bytes arrived at every turn: the ring is filled once,
      and one byte too few is left in it. */
  method ExactWaits(n: nat, turns: nat) returns (r: Option<int>)
    requires n > EXACT_LIMIT
    ensures r == None
  {
    hide CircularBuffer.Valid, Ring;
    var s := new Socket(seq(turns + 1, _ => Arrived(1)), seq(turns + 1, _ => 0));
    var t := new TcpReceiver(s);
    t.rcvbuf.SizesAddUp();
    assert t.rcvbuf.FirstFree().length == RCVBUF;
    t.rcvbuf.Fill(seq(RCVBUF, _ => 0));
    t.rcvbuf.Confirm(RCVBUF);
    var output := new byte[RCVBUF + n];
    if n <= RCVBUF {
      var k := t.rcvbuf.Peek(output, RCVBUF + 1 - n);
    }
    t.rcvbuf.SizesAddUp();
    r := t.RecvExact(output, n, turns);
  }
}
