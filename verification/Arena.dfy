/** One arena of equal slots: the free list is threaded through the free slots themselves.

    An address is a number.  A slot number is stored in the first four bytes of a free slot, least
    significant byte first. */
module Arenas {
  import opened Words
  import opened Wrappers

  const ADDRESSES: nat := 0x1_0000_0000_0000_0000

  /** Where slot i starts. */
  function Offset(elsz: nat, i: nat): nat { elsz * i }

  lemma OffsetsApart(elsz: nat, i: nat, j: nat)
    requires i < j
    ensures Offset(elsz, i) + elsz <= Offset(elsz, j)
  {
    assert elsz * j == elsz * (j - i - 1) + elsz * i + elsz;
  }

  /** The slot number `here` and `free` compute: the difference is divided as an unsigned word. */
  function Index(base: nat, elsz: nat, p: nat): nat
    requires elsz > 0
  {
    U64(p - base) / elsz
  }

  /** Exactly the addresses of the buffer have a slot number of the arena. */
  lemma IndexInside(base: nat, elsz: nat, n: nat, p: nat)
    requires elsz > 0 && p < ADDRESSES && base + Offset(elsz, n) <= ADDRESSES
    ensures Index(base, elsz, p) < n <==> base <= p < base + Offset(elsz, n)
  {
    var d := U64(p - base);
    var q, r := d / elsz, d % elsz;
    assert d == elsz * q + r;
    if q < n {
      OffsetsApart(elsz, q, n);
    } else if d < Offset(elsz, n) {
      if n < q {
        OffsetsApart(elsz, n, q);
      }
      assert false;
    }
  }

  lemma IndexOfSlot(base: nat, elsz: nat, i: nat)
    requires elsz > 0 && base + Offset(elsz, i) < ADDRESSES
    ensures Index(base, elsz, base + Offset(elsz, i)) == i
  {
    assert elsz * i == i * elsz;
    DivUnique(Offset(elsz, i), elsz, i, 0);
  }

  // ---------------------------------------------------------------- the buffer as a value

  ghost predicate Inside(mem: seq<byte>, elsz: nat, i: nat) { 4 <= elsz && Offset(elsz, i) + elsz <= |mem| }

  ghost function SlotOf(mem: seq<byte>, elsz: nat, i: nat): seq<byte>
    requires Inside(mem, elsz, i)
  {
    mem[Offset(elsz, i)..Offset(elsz, i) + elsz]
  }

  /** The link stored in a free slot. */
  ghost function LinkOf(mem: seq<byte>, elsz: nat, i: nat): nat
    requires Inside(mem, elsz, i)
  {
    LeValue(mem[Offset(elsz, i)..Offset(elsz, i) + 4])
  }

  lemma LinkIsInSlot(mem: seq<byte>, mem': seq<byte>, elsz: nat, i: nat)
    requires Inside(mem, elsz, i) && Inside(mem', elsz, i) && SlotOf(mem, elsz, i) == SlotOf(mem', elsz, i)
    ensures LinkOf(mem, elsz, i) == LinkOf(mem', elsz, i)
  {
    var at := Offset(elsz, i);
    hide Offset, LeValue;
    assert mem[at..at + 4] == SlotOf(mem, elsz, i)[..4] && mem'[at..at + 4] == SlotOf(mem', elsz, i)[..4];
  }

  /** What follows place k of the chain: the next slot, or the number one past the last slot. */
  ghost function Next(chain: seq<nat>, arsz: nat, k: nat): nat { if k < |chain| then chain[k] else arsz }

  /** The free list starts at ff, visits the slots of the chain, each once and all within the arena, and ends. */
  ghost predicate Threaded(mem: seq<byte>, elsz: nat, arsz: nat, ff: nat, chain: seq<nat>) {
    && (forall k :: 0 <= k < |chain| ==> chain[k] < arsz && Inside(mem, elsz, chain[k]))
    && (forall k, l :: 0 <= k < l < |chain| ==> chain[k] != chain[l])
    && ff == Next(chain, arsz, 0)
    && (forall k :: 0 <= k < |chain| ==> LinkOf(mem, elsz, chain[k]) == Next(chain, arsz, k + 1))
  }

  /** Only slot i differs. */
  ghost predicate OnlySlot(mem: seq<byte>, mem': seq<byte>, elsz: nat, arsz: nat, i: nat) {
    && |mem| == |mem'|
    && (forall k: nat :: k < arsz ==> Inside(mem, elsz, k))
    && (forall k: nat :: k < arsz && k != i ==> SlotOf(mem, elsz, k) == SlotOf(mem', elsz, k))
  }

  lemma PopKeeps(mem: seq<byte>, elsz: nat, arsz: nat, ff: nat, chain: seq<nat>)
    requires Threaded(mem, elsz, arsz, ff, chain) && chain != []
    ensures Threaded(mem, elsz, arsz, LinkOf(mem, elsz, ff), chain[1..])
  {
    hide Inside, LinkOf;
    var rest := chain[1..];
    forall k | 0 <= k < |rest| ensures LinkOf(mem, elsz, rest[k]) == Next(rest, arsz, k + 1) {
      assert rest[k] == chain[k + 1] && Next(rest, arsz, k + 1) == Next(chain, arsz, k + 2);
    }
  }

  /** Whatever is written into a slot that is not free, the free list is as before. */
  lemma WriteKeeps(mem: seq<byte>, mem': seq<byte>, elsz: nat, arsz: nat, ff: nat, chain: seq<nat>, i: nat)
    requires Threaded(mem, elsz, arsz, ff, chain) && OnlySlot(mem, mem', elsz, arsz, i) && i !in chain
    ensures Threaded(mem', elsz, arsz, ff, chain)
  {
    hide LinkOf, SlotOf;
    forall k | 0 <= k < |chain| ensures Inside(mem', elsz, chain[k]) && LinkOf(mem', elsz, chain[k]) == LinkOf(mem, elsz, chain[k]) {
      LinkIsInSlot(mem, mem', elsz, chain[k]);
    }
  }

  lemma PushKeeps(mem: seq<byte>, mem': seq<byte>, elsz: nat, arsz: nat, ff: nat, chain: seq<nat>, i: nat)
    requires Threaded(mem, elsz, arsz, ff, chain) && OnlySlot(mem, mem', elsz, arsz, i) && i !in chain && i < arsz
    requires Inside(mem', elsz, i) && LinkOf(mem', elsz, i) == ff
    ensures Threaded(mem', elsz, arsz, i, [i] + chain)
  {
    WriteKeeps(mem, mem', elsz, arsz, ff, chain, i);
    hide LinkOf, SlotOf, Inside, OnlySlot;
    var c := [i] + chain;
    forall k | 0 <= k < |c| ensures LinkOf(mem', elsz, c[k]) == Next(c, arsz, k + 1) {
      if k > 0 {
        assert c[k] == chain[k - 1] && Next(c, arsz, k + 1) == Next(chain, arsz, k);
      } else {
        assert Next(c, arsz, 1) == Next(chain, arsz, 0);
      }
    }
  }

  /** Storing bytes at the start of a slot leaves the other slots alone. */
  lemma StoreInSlot(mem: seq<byte>, mem': seq<byte>, elsz: nat, arsz: nat, i: nat)
    requires |mem| == |mem'| == Offset(elsz, arsz) && i < arsz && 4 <= elsz
    requires forall x :: 0 <= x < |mem| && !(Offset(elsz, i) <= x < Offset(elsz, i) + elsz) ==> mem'[x] == mem[x]
    ensures OnlySlot(mem, mem', elsz, arsz, i)
  {
    hide Offset;
    forall k: nat | k < arsz ensures Inside(mem, elsz, k) && (k != i ==> SlotOf(mem, elsz, k) == SlotOf(mem', elsz, k)) {
      OffsetsApart(elsz, k, arsz);
      if k < i {
        OffsetsApart(elsz, k, i);
      } else if i < k {
        OffsetsApart(elsz, i, k);
      }
    }
  }

  /** The constructor's loop: each slot names the one after it. */
  ghost predicate LinkedUpTo(mem: seq<byte>, elsz: nat, n: nat) {
    forall k: nat :: k < n ==> Inside(mem, elsz, k) && LinkOf(mem, elsz, k) == k + 1
  }

  ghost function Upwards(n: nat): seq<nat> { seq(n, k => k) }

  lemma NoneLinked(mem: seq<byte>, elsz: nat)
    ensures LinkedUpTo(mem, elsz, 0)
  {
  }

  lemma OneMoreLinked(mem: seq<byte>, mem': seq<byte>, elsz: nat, arsz: nat, i: nat)
    requires LinkedUpTo(mem, elsz, i) && OnlySlot(mem, mem', elsz, arsz, i) && i < arsz
    requires Inside(mem', elsz, i) && LinkOf(mem', elsz, i) == i + 1
    ensures LinkedUpTo(mem', elsz, i + 1)
  {
    hide LinkOf, SlotOf;
    forall k: nat | k < i ensures Inside(mem', elsz, k) && LinkOf(mem', elsz, k) == k + 1 {
      LinkIsInSlot(mem, mem', elsz, k);
    }
  }

  lemma AllThreaded(mem: seq<byte>, elsz: nat, arsz: nat)
    requires LinkedUpTo(mem, elsz, arsz)
    ensures Threaded(mem, elsz, arsz, 0, Upwards(arsz))
    ensures forall i :: 0 <= i < arsz ==> i in Upwards(arsz)
  {
    hide LinkOf, Inside;
    forall i | 0 <= i < arsz ensures i in Upwards(arsz) {
      assert Upwards(arsz)[i] == i;
    }
  }

  class Arena {
    const elsz: nat
    const arsz: nat
    const base: nat
    const buf: array<byte>
    var ff: nat
    ghost var chain: seq<nat>

    ghost predicate Shape() {
      && 4 <= elsz && 0 < base && 0 < arsz < 0x8000_0000
      && buf.Length == Offset(elsz, arsz) && base + buf.Length <= ADDRESSES
    }

    ghost predicate Valid()
      reads this, buf
    {
      Shape() && Threaded(buf[..], elsz, arsz, ff, chain)
    }

    /** A slot that has been handed out and not given back. */
    ghost predicate Live(i: nat)
      reads this
    {
      i < arsz && i !in chain
    }

    /** The address of a live slot. */
    ghost predicate Owned(q: nat)
      reads this
    {
      Shape() && q < ADDRESSES && Live(Index(base, elsz, q)) && q == base + Offset(elsz, Index(base, elsz, q))
    }

    /** What the slot at q holds. */
    ghost function Bytes(q: nat): (b: seq<byte>)
      reads this, buf
      requires Owned(q)
      ensures |b| == elsz
    {
      OffsetsApart(elsz, Index(base, elsz, q), arsz);
      SlotOf(buf[..], elsz, Index(base, elsz, q))
    }

    constructor (elsz: nat, arsz: nat, base: nat)
      requires 4 <= elsz && 0 < base && 0 < arsz < 0x8000_0000 && base + Offset(elsz, arsz) <= ADDRESSES
      ensures Valid() && fresh(buf)
      ensures this.elsz == elsz && this.arsz == arsz && this.base == base
      ensures forall q: nat :: !Owned(q)
    {
      this.elsz, this.arsz, this.base := elsz, arsz, base;
      buf := new byte[Offset(elsz, arsz)];
      ff := 0;
      chain := Upwards(arsz);
      new;
      hide LinkedUpTo, Offset, Threaded, Upwards;
      ThreadAll();
      AllThreaded(buf[..], elsz, arsz);
    }

    method ThreadAll()
      requires Shape()
      modifies buf
      ensures LinkedUpTo(buf[..], elsz, arsz)
    {
      hide LinkedUpTo, Offset;
      NoneLinked(buf[..], elsz);
      for i := 0 to arsz
        invariant LinkedUpTo(buf[..], elsz, i)
      {
        ghost var was := buf[..];
        StoreLink(i, i + 1);
        OneMoreLinked(was, buf[..], elsz, arsz, i);
      }
    }

    /** memcpy into the buffer. */
    method Fill(at: nat, bytes: seq<byte>)
      requires at + |bytes| <= buf.Length
      modifies buf
      ensures buf[at..at + |bytes|] == bytes
      ensures forall x :: 0 <= x < buf.Length && !(at <= x < at + |bytes|) ==> buf[x] == old(buf[x])
    {
      for j := 0 to |bytes|
        invariant buf[at..at + j] == bytes[..j]
        invariant forall x :: 0 <= x < buf.Length && !(at <= x < at + j) ==> buf[x] == old(buf[x])
      {
        buf[at + j] := bytes[j];
      }
    }

    /** Writes a slot number into the first bytes of slot i; nothing else changes. */
    method StoreLink(i: nat, v: nat)
      requires Shape() && i < arsz && v <= arsz
      modifies buf
      ensures OnlySlot(old(buf[..]), buf[..], elsz, arsz, i)
      ensures Inside(buf[..], elsz, i) && LinkOf(buf[..], elsz, i) == v
    {
      OffsetsApart(elsz, i, arsz);
      hide LeBytes, LeValue, Offset, OnlySlot, Pow256;
      Fill(Offset(elsz, i), LeBytes(v, 4));
      StoreInSlot(old(buf[..]), buf[..], elsz, arsz, i);
      LinkStored(buf[..], elsz, i, v);
    }

    lemma LinkStored(mem: seq<byte>, elsz: nat, i: nat, v: nat)
      requires Inside(mem, elsz, i) && v < 0x1_0000_0000
      requires mem[Offset(elsz, i)..Offset(elsz, i) + 4] == LeBytes(v, 4)
      ensures LinkOf(mem, elsz, i) == v
    {
      assert Pow256(4) == 0x1_0000_0000;
      hide LeBytes, LeValue, Offset;
      LeValueOfBytes(v, 4);
    }

    method LoadLink(i: nat) returns (v: nat)
      requires Inside(buf[..], elsz, i)
      ensures v == LinkOf(buf[..], elsz, i)
    {
      var at := Offset(elsz, i);
      assert buf[at..at + 4] == buf[..][at..at + 4];
      v := LeValue(buf[at..at + 4]);
    }

    /** alloc: takes the first free slot, or nothing when there is none. */
    method Alloc() returns (p: Option<nat>)
      requires Valid()
      modifies this
      ensures Valid()
      ensures p.None? <==> old(chain) == []
      ensures p.None? ==> chain == old(chain)
      ensures p.Some? ==> chain == old(chain)[1..] && p.value == base + Offset(elsz, old(chain)[0])
      ensures p.Some? ==> !old(Owned(p.value)) && Owned(p.value)
      ensures forall q: nat :: p != Some(q) ==> Owned(q) == old(Owned(q))
    {
      hide Offset, Inside, LinkOf, Index;
      if ff < arsz {
        var taken := ff;
        PopKeeps(buf[..], elsz, arsz, ff, chain);
        assert taken == chain[0];
        ff := LoadLink(taken);
        ghost var was := chain;
        chain := chain[1..];
        SplitChain(was);
        OffsetsApart(elsz, taken, arsz);
        IndexOfSlot(base, elsz, taken);
        return Some(base + Offset(elsz, taken));
      }
      return None;
    }

    static lemma SplitChain(was: seq<nat>)
      requires was != []
      requires forall k, l :: 0 <= k < l < |was| ==> was[k] != was[l]
      ensures was[0] !in was[1..] && forall i: nat :: i in was <==> i == was[0] || i in was[1..]
    {
      assert was == [was[0]] + was[1..];
    }

    /** here. */
    function Here(p: nat): bool
      requires elsz > 0
    {
      Index(base, elsz, p) < arsz
    }

    /** free: puts the slot in front of the list; false for an address outside the buffer. */
    method Free(p: nat) returns (ok: bool)
      requires Valid() && p < ADDRESSES
      requires Here(p) ==> Owned(p)
      modifies this, buf
      ensures Valid()
      ensures ok == Here(p)
      ensures !ok ==> unchanged(this) && unchanged(buf)
      ensures ok ==> chain == [Index(base, elsz, p)] + old(chain) && !Owned(p)
      ensures forall q: nat :: q != p || !ok ==> Owned(q) == old(Owned(q))
      ensures forall q: nat :: Owned(q) ==> Bytes(q) == old(Bytes(q))
    {
      hide Threaded, Offset, Index, LinkOf, Inside, OnlySlot, SlotOf;
      var index := Index(base, elsz, p);
      if index >= arsz {
        return false;
      }
      FirstBound();
      StoreLink(index, ff);
      PushKeeps(old(buf[..]), buf[..], elsz, arsz, ff, chain, index);
      chain := [index] + chain;
      ff := index;
      OthersSame(old(buf[..]), index);
      return true;
    }

    /** Whoever changed slot i only, the bytes at every other address are as before. */
    lemma OthersSame(was: seq<byte>, i: nat)
      requires Shape() && OnlySlot(was, buf[..], elsz, arsz, i)
      ensures forall q: nat :: Owned(q) && Index(base, elsz, q) != i ==>
                Inside(was, elsz, Index(base, elsz, q)) && Bytes(q) == SlotOf(was, elsz, Index(base, elsz, q))
    {
      hide Offset, Index, SlotOf;
    }

    lemma FirstBound()
      requires Valid()
      ensures ff <= arsz
    {
      hide Inside, LinkOf;
    }

    /** A client's writes into a live slot. */
    method Write(p: nat, bytes: seq<byte>)
      requires Valid() && Owned(p) && |bytes| <= elsz
      modifies buf
      ensures Valid() && Owned(p)
      ensures Bytes(p) == bytes + old(Bytes(p))[|bytes|..]
      ensures forall q: nat :: Owned(q) && q != p ==> Bytes(q) == old(Bytes(q))
    {
      hide Threaded, Offset, Index, OnlySlot;
      ghost var i := Index(base, elsz, p);
      OffsetsApart(elsz, i, arsz);
      var at := p - base;
      Fill(at, bytes);
      StoreInSlot(old(buf[..]), buf[..], elsz, arsz, i);
      WriteKeeps(old(buf[..]), buf[..], elsz, arsz, ff, chain, i);
      assert Bytes(p) == bytes + old(Bytes(p))[|bytes|..] by {
        assert buf[..][at..at + elsz] == buf[at..at + |bytes|] + buf[at + |bytes|..at + elsz];
        assert buf[at + |bytes|..at + elsz] == old(buf[..])[at..at + elsz][|bytes|..];
      }
      hide SlotOf;
      OthersSame(old(buf[..]), i);
    }
  }
}
