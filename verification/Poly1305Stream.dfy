/** The Poly1305 object: a key, pieces of any length, a tag. */
module Poly1305Stream {
  import opened Words
  import opened Poly1305Limbs
  import opened Poly1305Mac
  import opened AlignmentBuffers
  import opened Wrappers

  /** A state that has absorbed exactly some whole blocks. */
  ghost predicate StateAfter(x: seq<u64>, key: seq<byte>, whole: seq<byte>) {
    |key| == 32 && |whole| % 16 == 0 && StateFor(x, key, Absorb(0, RfcR(key), whole, false))
  }

  lemma StateExtend(x: seq<u64>, key: seq<byte>, whole: seq<byte>, data: seq<byte>)
    requires |key| == 32 && |whole| % 16 == 0 && |data| % 16 == 0
    requires StateFor(x, key, Absorb(Absorb(0, RfcR(key), whole, false), RfcR(key), data, false))
    ensures StateAfter(x, key, whole + data)
  {
    hide StateFor, Absorb;
    AbsorbConcat(0, RfcR(key), whole, data, false);
  }

  /** A message split at its last whole block. */
  lemma RfcSplit(key: seq<byte>, msg: seq<byte>, done: seq<byte>, rest: seq<byte>)
    requires |key| == 32 && msg == done + rest && |done| % 16 == 0 && |rest| < 16
    ensures RfcAccumulator(key, msg)
         == if rest == [] then Absorb(0, RfcR(key), done, false)
            else AddTimes(Absorb(0, RfcR(key), done, false), LeValue(rest + [1]), RfcR(key))
  {
    RfcOnBlocks(0, RfcR(key), done, rest);
    hide AddTimes, RfcR, Absorb, LeValue;
    if rest != [] {
      assert rest[..|rest|] == rest && rest[|rest|..] == [];
    }
  }

  /** The final padded block. */
  lemma FinalBlock(acc: nat, r: nat, rest: seq<byte>, block: seq<byte>)
    requires |rest| < 16 && acc < P
    requires block == rest + [1] + seq(16 - |rest| - 1, _ => 0)
    ensures |block| == 16 && Absorb(acc, r, block, true) == AddTimes(acc, LeValue(rest + [1]), r)
  {
    hide AddTimes, LeValue;
    PadZeros(rest + [1], 16 - |rest| - 1);
    DivUnique(acc, P, 0, acc);
    assert block[..0] == [] && block[0..] == block;
    AbsorbOne(acc, r, block);
  }

  lemma AbsorbOne(acc: nat, r: nat, block: seq<byte>)
    requires |block| == 16 && block[..0] == [] && block[0..] == block
    ensures Absorb(acc, r, block, true) == AddTimes(acc % P, LeValue(block), r)
  {
    hide AddTimes, LeValue;
  }

  class Poly1305 {
    var poly: array<u64>
    var buffer: AlignmentBuffer
    ghost var key: seq<byte>
    /** Everything passed to Update since the key was set. */
    ghost var message: seq<byte>
    /** The part of the message that has been absorbed in whole blocks. */
    ghost var whole: seq<byte>

    ghost var Repr: set<object>

    ghost predicate Valid()
      reads this, Repr
    {
      && {this, poly, buffer} <= Repr && buffer.buffer in Repr
      && poly as object != buffer.buffer as object
      && buffer.Valid() && buffer.buffer.Length == 16
      && (poly.Length != 0 ==>
        && buffer.position < 16
        && message == whole + buffer.Contents()
        && StateAfter(poly[..], key, whole))
    }

    ghost predicate Keyed()
      reads this
    {
      poly.Length != 0
    }

    constructor ()
      ensures Valid() && fresh(Repr) && !Keyed()
    {
      poly := new u64[0];
      buffer := new AlignmentBuffer(16);
      new;
      Repr := {this, poly, buffer, buffer.buffer};
    }

    method SetKey(k: seq<byte>)
      requires Valid() && |k| == 32
      modifies Repr
      ensures Valid() && fresh(Repr - old(Repr)) && Keyed()
      ensures key == k && message == []
    {
      buffer.Clear();
      poly := new u64[8];
      Repr := Repr + {poly};
      key, message, whole := k, [], [];
      Poly1305Init(poly, k);
    }

    /** Absorb a piece; the cut between pieces leaves no trace. */
    method Update(input: seq<byte>)
      requires Valid() && Keyed()
      modifies Repr
      ensures Valid() && Keyed() && Repr == old(Repr)
      ensures key == old(key) && message == old(message) + input
    {
      hide StateAfter, StateFor;
      var slicer := new BufferSlicer(input);
      while |slicer.remaining| > 0
        invariant Valid() && Keyed() && Repr == old(Repr) && key == old(key)
        invariant message + slicer.remaining == old(message) + input
        decreases |slicer.remaining|
      {
        Turn(slicer);
      }
    }

    /** One turn of the update loop: finish the buffered block, then take whole blocks directly. */
    method Turn(slicer: BufferSlicer)
      requires Valid() && Keyed() && |slicer.remaining| > 0
      modifies poly, buffer, buffer.buffer, slicer, this`message, this`whole
      ensures Valid() && buffer.buffer == old(buffer.buffer)
      ensures message + slicer.remaining == old(message) + old(slicer.remaining)
      ensures |slicer.remaining| < |old(slicer.remaining)|
    {
      hide StateAfter, StateFor;
      var block := buffer.HandleUnalignedData(slicer);
      if block.Some? {
        AbsorbBlocks(block.value, 1);
      }
      TakeAligned(slicer);
      message := whole + buffer.Contents();
    }

    /** Whole blocks straight from the input, when nothing is buffered. */
    method TakeAligned(slicer: BufferSlicer)
      requires buffer.Valid() && buffer.buffer.Length == 16 && poly as object != buffer.buffer as object
      requires StateAfter(poly[..], key, whole)
      modifies poly, slicer, this`whole
      ensures StateAfter(poly[..], key, whole)
      ensures whole + buffer.Contents() + slicer.remaining == old(whole + buffer.Contents() + slicer.remaining)
      ensures |slicer.remaining| <= old(|slicer.remaining|)
      ensures buffer.InAlignment() ==> |slicer.remaining| < 16
    {
      hide StateAfter, StateFor;
      if buffer.InAlignment() {
        var data, fullBlocks := buffer.AlignedDataToProcess(slicer);
        if fullBlocks > 0 {
          AbsorbBlocks(data, fullBlocks);
        }
      }
    }

    /** Run whole blocks through the accumulator. */
    method AbsorbBlocks(data: seq<byte>, blocks: nat)
      requires StateAfter(poly[..], key, whole) && |data| == 16 * blocks
      modifies poly, this`whole
      ensures StateAfter(poly[..], key, whole) && whole == old(whole) + data
    {
      hide StateFor, Absorb;
      Poly1305Blocks(poly, data, blocks, false, key, Absorb(0, RfcR(key), whole, false));
      StateExtend(poly[..], key, whole, data);
      whole := whole + data;
    }

    method Final() returns (mac: seq<byte>)
      requires Valid() && Keyed()
      modifies Repr
      ensures Valid() && !Keyed() && fresh(Repr - old(Repr))
      ensures mac == StreamTag(old(key), old(message))
    {
      hide StateFor, Absorb, LeBytes, RfcR, RfcS, CodeTag;
      ghost var rest := buffer.Contents();
      ghost var acc := Absorb(0, RfcR(key), whole, false);
      RfcSplit(key, message, whole, rest);
      if !buffer.InAlignment() {
        buffer.Append([1]);
        buffer.FillUpWithZeros();
        var block := buffer.Consume();
        FinalBlock(acc, RfcR(key), rest, block);
        Poly1305Blocks(poly, block, 1, true, key, acc);
        acc := Absorb(acc, RfcR(key), block, true);
      }
      mac := Poly1305Finish(poly, key, acc);
      poly := new u64[0];
      Repr := Repr + {poly};
      buffer.Clear();
    }
  }
}
