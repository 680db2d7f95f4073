/** The allocator over three arenas and the C heap: allocation with fallbacks, release, and the resizing that
    moves a block from one to the other. */
module Allocators {
  import opened Arenas
  import opened Words
  import opened Wrappers

  /** The addresses a block takes up: at least one, so that no two blocks start at the same address. */
  function Span(n: nat): nat { if n == 0 then 1 else n }

  predicate Apart(p: nat, n: nat, q: nat, m: nat) { p + Span(n) <= q || q + Span(m) <= p }

  /** Blocks of the C heap, by address: in range and without overlap. */
  ghost predicate HeapApart(heap: map<nat, seq<byte>>) {
    forall p, q :: p in heap && q in heap && p != q ==> Apart(p, |heap[p]|, q, |heap[q]|)
  }

  class Allocator {
    const arena8: Arena
    const arena32: Arena
    const arena64: Arena
    var heap: map<nat, seq<byte>>

    /** A stretch of addresses outside the three buffers. */
    ghost predicate Outside(p: nat, n: nat) {
      && 0 < p && p + Span(n) <= ADDRESSES
      && Apart(p, n, arena8.base, arena8.buf.Length)
      && Apart(p, n, arena32.base, arena32.buf.Length)
      && Apart(p, n, arena64.base, arena64.buf.Length)
    }

    ghost predicate Layout() {
      && arena8.elsz == 8 && arena8.arsz == 1024 && arena8.Shape()
      && arena32.elsz == 32 && arena32.arsz == 2048 && arena32.Shape()
      && arena64.elsz == 64 && arena64.arsz == 2048 && arena64.Shape()
      && arena8 != arena32 && arena8 != arena64 && arena32 != arena64
      && arena8.buf != arena32.buf && arena8.buf != arena64.buf && arena32.buf != arena64.buf
      && Apart(arena8.base, arena8.buf.Length, arena32.base, arena32.buf.Length)
      && Apart(arena8.base, arena8.buf.Length, arena64.base, arena64.buf.Length)
      && Apart(arena32.base, arena32.buf.Length, arena64.base, arena64.buf.Length)
    }

    ghost predicate HeapValid()
      reads this
    {
      && HeapApart(heap)
      && (forall p :: p in heap ==> Outside(p, |heap[p]|))
    }

    ghost predicate Valid()
      reads this, arena8, arena8.buf, arena32, arena32.buf, arena64, arena64.buf
    {
      Layout() && arena8.Valid() && arena32.Valid() && arena64.Valid() && HeapValid()
    }

    /** A block handed out and not given back. */
    ghost predicate Live(p: nat)
      reads this, arena8, arena32, arena64
    {
      arena8.Owned(p) || arena32.Owned(p) || arena64.Owned(p) || p in heap
    }

    /** All the bytes of a live block. */
    ghost function Content(p: nat): seq<byte>
      reads this, arena8, arena8.buf, arena32, arena32.buf, arena64, arena64.buf
      requires Live(p)
    {
      if arena8.Owned(p) then arena8.Bytes(p)
      else if arena32.Owned(p) then arena32.Bytes(p)
      else if arena64.Owned(p) then arena64.Bytes(p)
      else heap[p]
    }

    /** The three arenas at the given addresses, all their slots free. */
    constructor (base8: nat, base32: nat, base64: nat)
      requires 0 < base8 && base8 + 8192 <= ADDRESSES && 0 < base32 && base32 + 65536 <= ADDRESSES
      requires 0 < base64 && base64 + 131072 <= ADDRESSES
      requires Apart(base8, 8192, base32, 65536) && Apart(base8, 8192, base64, 131072) && Apart(base32, 65536, base64, 131072)
      ensures Valid() && forall p: nat :: !Live(p)
    {
      arena8 := new Arena(8, 1024, base8);
      arena32 := new Arena(32, 2048, base32);
      arena64 := new Arena(64, 2048, base64);
      heap := map[];
    }

    /** Exactly one of the four places holds a live block, and `here` finds which. */
    lemma OnePlace(p: nat)
      requires Valid() && Live(p)
      ensures p < ADDRESSES && 0 < p
      ensures arena8.Here(p) <==> arena8.Owned(p)
      ensures arena32.Here(p) <==> arena32.Owned(p)
      ensures arena64.Here(p) <==> arena64.Owned(p)
      ensures p in heap ==> !arena8.Owned(p) && !arena32.Owned(p) && !arena64.Owned(p)
      ensures arena8.Owned(p) ==> !arena32.Owned(p) && !arena64.Owned(p)
      ensures arena32.Owned(p) ==> !arena64.Owned(p)
    {
      hide Arena.Valid, Offset, Index;
      IndexInside(arena8.base, 8, 1024, p);
      IndexInside(arena32.base, 32, 2048, p);
      IndexInside(arena64.base, 64, 2048, p);
    }

    /** A live block lies in one buffer or in the heap. */
    lemma WhereBytesAre(a: Arena, p: nat)
      requires a.Shape() && a.Owned(p)
      ensures a.base <= p && p + a.elsz <= a.base + a.buf.Length
    {
      OffsetsApart(a.elsz, Index(a.base, a.elsz, p), a.arsz);
    }

    /** Slots of one arena do not overlap. */
    lemma SlotsApart(a: Arena, p: nat, q: nat)
      requires a.Shape() && a.Owned(p) && a.Owned(q) && p != q
      ensures p + a.elsz <= q || q + a.elsz <= p
    {
      var i, j := Index(a.base, a.elsz, p), Index(a.base, a.elsz, q);
      hide Index;
      if i < j {
        OffsetsApart(a.elsz, i, j);
      } else if j < i {
        OffsetsApart(a.elsz, j, i);
      }
    }

    /** Live blocks never overlap. */
    lemma BlocksApart(p: nat, q: nat)
      requires Valid() && Live(p) && Live(q) && p != q
      ensures Apart(p, |Content(p)|, q, |Content(q)|)
    {
      hide Arena.Valid, Arena.Owned, Offset, Index;
      OnePlace(p);
      OnePlace(q);
      if arena8.Owned(p) { WhereBytesAre(arena8, p); }
      if arena8.Owned(q) { WhereBytesAre(arena8, q); }
      if arena32.Owned(p) { WhereBytesAre(arena32, p); }
      if arena32.Owned(q) { WhereBytesAre(arena32, q); }
      if arena64.Owned(p) { WhereBytesAre(arena64, p); }
      if arena64.Owned(q) { WhereBytesAre(arena64, q); }
      if arena8.Owned(p) && arena8.Owned(q) { SlotsApart(arena8, p, q); }
      if arena32.Owned(p) && arena32.Owned(q) { SlotsApart(arena32, p, q); }
      if arena64.Owned(p) && arena64.Owned(q) { SlotsApart(arena64, p, q); }
    }

    /** An address the C library may answer a request for n bytes with. */
    ghost predicate Vacant(at: nat, n: nat)
      reads this
    {
      Outside(at, n) && forall p :: p in heap ==> Apart(at, n, p, |heap[p]|)
    }

    /** A block at p has been handed out, with room for n bytes; all other blocks are as they were. */
    twostate predicate Took(p: nat, n: nat)
      reads this, arena8, arena8.buf, arena32, arena32.buf, arena64, arena64.buf
    {
      && Valid() && old(!Live(p)) && Live(p) && n <= |Content(p)|
      && (forall q: nat :: q != p ==> Live(q) == old(Live(q)))
      && (forall q: nat :: old(Live(q)) ==> Live(q) && Content(q) == old(Content(q)))
    }

    /** malloc, which answers with the address `at`. */
    method Malloc(n: nat, at: nat) returns (p: nat)
      requires Valid() && Vacant(at, n)
      modifies this
      ensures Took(p, n) && p == at && p in heap && |Content(p)| == n
      ensures arena8.chain == old(arena8.chain) && arena32.chain == old(arena32.chain) && arena64.chain == old(arena64.chain)
    {
      hide Arena.Valid, Arena.Owned, Offset, Index;
      ghost var before := heap;
      NotOwned(at, n);
      heap := heap[at := seq(n, _ => 0)];
      p := at;
      assert arena8.Valid() && arena32.Valid() && arena64.Valid();
    }

    lemma NotOwnedValid(at: nat, n: nat)
      requires Valid() && Outside(at, n)
      ensures !arena8.Owned(at) && !arena32.Owned(at) && !arena64.Owned(at)
    {
      NotOwned(at, n);
    }

    lemma NotOwned(at: nat, n: nat)
      requires Layout() && Outside(at, n)
      ensures !arena8.Owned(at) && !arena32.Owned(at) && !arena64.Owned(at)
    {
      if arena8.Owned(at) { WhereBytesAre(arena8, at); }
      if arena32.Owned(at) { WhereBytesAre(arena32, at); }
      if arena64.Owned(at) { WhereBytesAre(arena64, at); }
    }

    // The arenas in the order in which one falls back on the next.

    method Alloc64(n: nat, at: nat) returns (p: nat)
      requires Valid() && n <= 64 && Vacant(at, n)
      modifies this, arena64
      ensures Took(p, n)
      ensures if old(arena64.chain) != [] then arena64.Owned(p) else p in heap
      ensures arena8.chain == old(arena8.chain) && arena32.chain == old(arena32.chain)
    {
      hide Arena.Valid, Arena.Owned, Offset, Index;
      var r := arena64.Alloc();
      if r == None {
        p := Malloc(n, at);
      } else {
        p := r.value;
        assert arena8.Valid() && arena32.Valid();
        OnePlace(p);
      }
    }

    method Alloc32(n: nat, at: nat) returns (p: nat)
      requires Valid() && n <= 32 && Vacant(at, n)
      modifies this, arena32, arena64
      ensures Took(p, n)
      ensures if old(arena32.chain) != [] then arena32.Owned(p)
              else if old(arena64.chain) != [] then arena64.Owned(p)
              else p in heap
      ensures arena8.chain == old(arena8.chain)
    {
      hide Arena.Valid, Arena.Owned, Offset, Index;
      var r := arena32.Alloc();
      if r == None {
        p := Alloc64(n, at);
      } else {
        p := r.value;
        assert arena8.Valid() && arena64.Valid();
        OnePlace(p);
      }
    }

    method Alloc8(n: nat, at: nat) returns (p: nat)
      requires Valid() && n <= 8 && Vacant(at, n)
      modifies this, arena8, arena32, arena64
      ensures Took(p, n)
      ensures if old(arena8.chain) != [] then arena8.Owned(p)
              else if old(arena32.chain) != [] then arena32.Owned(p)
              else if old(arena64.chain) != [] then arena64.Owned(p)
              else p in heap
    {
      hide Arena.Valid, Arena.Owned, Offset, Index;
      var r := arena8.Alloc();
      if r == None {
        p := Alloc32(n, at);
      } else {
        p := r.value;
        assert arena32.Valid() && arena64.Valid();
        OnePlace(p);
      }
    }

    /** ma: the block comes from the first arena whose slots are large enough and not all taken, and from the C
        heap when there is none. */
    method Ma(n: nat, at: nat) returns (p: nat)
      requires Valid() && Vacant(at, n)
      modifies this, arena8, arena32, arena64
      ensures Took(p, n)
      ensures if n <= 8 && old(arena8.chain) != [] then arena8.Owned(p)
              else if n <= 32 && old(arena32.chain) != [] then arena32.Owned(p)
              else if n <= 64 && old(arena64.chain) != [] then arena64.Owned(p)
              else p in heap
    {
      hide Valid, Vacant, Took, Arena.Owned;
      if n <= 8 {
        p := Alloc8(n, at);
      } else if n <= 32 {
        p := Alloc32(n, at);
      } else if n <= 64 {
        p := Alloc64(n, at);
      } else {
        p := Malloc(n, at);
      }
    }

    /** The block at p has been given back; all other blocks are as they were. */
    twostate predicate Gave(p: nat)
      reads this, arena8, arena8.buf, arena32, arena32.buf, arena64, arena64.buf
    {
      && Valid() && !Live(p)
      && (forall q: nat :: q != p ==> Live(q) == old(Live(q)))
      && (forall q: nat :: q != p && old(Live(q)) ==> Live(q) && Content(q) == old(Content(q)))
    }

    method Free8(p: nat) returns (ok: bool)
      requires Valid() && Live(p)
      modifies arena8, arena8.buf
      ensures ok == old(arena8.Owned(p))
      ensures ok ==> Gave(p)
      ensures !ok ==> unchanged(arena8) && unchanged(arena8.buf)
    {
      hide Arena.Valid, Arena.Owned, Offset, Index;
      OnePlace(p);
      ok := arena8.Free(p);
      assert arena32.Valid() && arena64.Valid();
    }

    method Free32(p: nat) returns (ok: bool)
      requires Valid() && Live(p)
      modifies arena32, arena32.buf
      ensures ok == old(arena32.Owned(p))
      ensures ok ==> Gave(p)
      ensures !ok ==> unchanged(arena32) && unchanged(arena32.buf)
    {
      hide Arena.Valid, Arena.Owned, Offset, Index;
      OnePlace(p);
      ok := arena32.Free(p);
      assert arena8.Valid() && arena64.Valid();
    }

    method Free64(p: nat) returns (ok: bool)
      requires Valid() && Live(p)
      modifies arena64, arena64.buf
      ensures ok == old(arena64.Owned(p))
      ensures ok ==> Gave(p)
      ensures !ok ==> unchanged(arena64) && unchanged(arena64.buf)
    {
      hide Arena.Valid, Arena.Owned, Offset, Index;
      OnePlace(p);
      ok := arena64.Free(p);
      assert arena8.Valid() && arena32.Valid();
    }

    /** free of the C library. */
    method FreeHeap(p: nat)
      requires Valid() && p in heap
      modifies this
      ensures Gave(p)
    {
      hide Arena.Valid, Arena.Owned, Offset, Index;
      OnePlace(p);
      heap := heap - {p};
      assert arena8.Valid() && arena32.Valid() && arena64.Valid();
    }

    /** mf of a live block. */
    method Mf(p: nat)
      requires Valid() && Live(p)
      modifies this, arena8, arena8.buf, arena32, arena32.buf, arena64, arena64.buf
      ensures Gave(p)
    {
      hide Valid, Live, Content;
      var ok := Free8(p);
      if ok {
        return;
      }
      ok := Free32(p);
      if ok {
        return;
      }
      ok := Free64(p);
      if ok {
        return;
      }
      assert p in heap by {
        assert Live(p) == old(Live(p));
        InHeap(p);
      }
      FreeHeap(p);
    }

    lemma InHeap(p: nat)
      requires Live(p) && !arena8.Owned(p) && !arena32.Owned(p) && !arena64.Owned(p)
      ensures p in heap
    {
    }

    /** The first n bytes of a live block. */
    method Read(p: nat, n: nat) returns (bytes: seq<byte>)
      requires Valid() && Live(p) && n <= |Content(p)|
      ensures bytes == Content(p)[..n]
    {
      hide Arena.Valid, Arena.Owned, Offset, Index;
      OnePlace(p);
      if arena8.Here(p) {
        bytes := ReadSlot(arena8, p, n);
      } else if arena32.Here(p) {
        bytes := ReadSlot(arena32, p, n);
      } else if arena64.Here(p) {
        bytes := ReadSlot(arena64, p, n);
      } else {
        bytes := heap[p][..n];
      }
    }

    static method ReadSlot(a: Arena, p: nat, n: nat) returns (bytes: seq<byte>)
      requires a.Shape() && a.Owned(p) && n <= a.elsz
      ensures bytes == a.Bytes(p)[..n]
    {
      OffsetsApart(a.elsz, Index(a.base, a.elsz, p), a.arsz);
      hide Offset, Index;
      var at := p - a.base;
      bytes := a.buf[at..at + n];
      assert a.buf[..][at..at + a.elsz][..n] == a.buf[at..at + n];
    }

    /** The bytes written over the start of the block at p; nothing else changes. */
    twostate predicate Wrote(p: nat, bytes: seq<byte>)
      requires old(Live(p)) && |bytes| <= |old(Content(p))|
      reads this, arena8, arena8.buf, arena32, arena32.buf, arena64, arena64.buf
    {
      && Valid()
      && (forall q: nat :: Live(q) == old(Live(q)))
      && Live(p) && Content(p) == bytes + old(Content(p))[|bytes|..]
      && (forall q: nat :: q != p && Live(q) ==> old(Live(q)) && Content(q) == old(Content(q)))
    }

    /** memcpy into a live block. */
    method Write(p: nat, bytes: seq<byte>)
      requires Valid() && Live(p) && |bytes| <= |Content(p)|
      modifies this, arena8.buf, arena32.buf, arena64.buf
      ensures Wrote(p, bytes)
    {
      hide Arena.Valid, Arena.Owned, Offset, Index;
      OnePlace(p);
      if arena8.Here(p) {
        arena8.Write(p, bytes);
        assert arena32.Valid() && arena64.Valid();
      } else if arena32.Here(p) {
        arena32.Write(p, bytes);
        assert arena8.Valid() && arena64.Valid();
      } else if arena64.Here(p) {
        arena64.Write(p, bytes);
        assert arena8.Valid() && arena32.Valid();
      } else {
        heap := heap[p := bytes + heap[p][|bytes|..]];
        assert arena8.Valid() && arena32.Valid() && arena64.Valid();
      }
    }

    /** The block at p has become one at np with room for n bytes: what fits of its bytes is there, all other
        blocks are as they were. */
    twostate predicate Resized(p: nat, n: nat, np: nat)
      requires old(Live(p))
      reads this, arena8, arena8.buf, arena32, arena32.buf, arena64, arena64.buf
    {
      && Valid() && Live(np) && n <= |Content(np)|
      && (var k := Min(n, |old(Content(p))|); Content(np)[..k] == old(Content(p))[..k])
      && (np != p ==> old(!Live(np)) && !Live(p))
      && (forall q: nat :: q != p && q != np ==> Live(q) == old(Live(q)))
      && (forall q: nat :: q != p && old(Live(q)) ==> Live(q) && Content(q) == old(Content(q)))
    }

    /** An address the C library may answer a resize of p with. */
    ghost predicate VacantBut(p: nat, at: nat, n: nat)
      reads this
    {
      Outside(at, n) && forall q :: q in heap && q != p ==> Apart(at, n, q, |heap[q]|)
    }

    static lemma MapMove(h: map<nat, seq<byte>>, p: nat, at: nat, b: seq<byte>)
      requires p in h
      ensures forall q: nat :: q in (h - {p})[at := b] <==> q == at || (q in h && q != p)
      ensures forall q: nat :: q in h && q != p && q != at ==> (h - {p})[at := b][q] == h[q]
    {
    }

    /** realloc of the C library, which answers with the address `at`. */
    method Realloc(p: nat, n: nat, at: nat) returns (np: nat)
      requires Valid() && p in heap && VacantBut(p, at, n)
      modifies this
      ensures Resized(p, n, np) && np == at
    {
      hide Valid, Arena.Owned, Offset, Index;
      OnePlace(p);
      NotOwnedValid(at, n);
      var k := Min(n, |heap[p]|);
      var moved := heap[p][..k] + seq(n - k, _ => 0);
      assert moved[..k] == heap[p][..k];
      MapMove(heap, p, at, moved);
      Replace(p, at, moved);
      np := at;
    }

    method Replace(p: nat, at: nat, b: seq<byte>)
      requires Valid() && p in heap && VacantBut(p, at, |b|)
      modifies this
      ensures Valid() && heap == (old(heap) - {p})[at := b]
    {
      hide Arena.Valid, Offset, Index;
      heap := (heap - {p})[at := b];
      assert arena8.Valid() && arena32.Valid() && arena64.Valid();
    }

    /** The move out of an arena: a new block, the old bytes copied, the old slot given back. */
    method Move(p: nat, n: nat, at: nat, elsz: nat) returns (np: nat)
      requires Valid() && Live(p) && Vacant(at, n) && elsz < n && |Content(p)| == elsz
      modifies this, arena8, arena8.buf, arena32, arena32.buf, arena64, arena64.buf
      ensures Resized(p, n, np) && np != p
    {
      hide Valid, Live, Content, Vacant;
      np := Ma(n, at);
      var bytes := Read(p, elsz);
      Write(np, bytes);
      Mf(p);
    }

    /** rs of a live block: it stays where it is exactly when it is in a slot that is large enough. */
    method Rs(p: nat, n: nat, at: nat) returns (np: nat)
      requires Valid() && Live(p) && VacantBut(p, at, n)
      modifies this, arena8, arena8.buf, arena32, arena32.buf, arena64, arena64.buf
      ensures Resized(p, n, np)
      ensures old(p !in heap) ==> (np == p <==> n <= |old(Content(p))|)
      ensures old(p in heap) ==> np == at
    {
      hide Arena.Valid, Arena.Owned, Offset, Index, HeapValid;
      OnePlace(p);
      if arena8.Here(p) {
        if n <= 8 {
          return p;
        }
        np := Move(p, n, at, 8);
      } else if arena32.Here(p) {
        if n <= 32 {
          return p;
        }
        np := Move(p, n, at, 32);
      } else if arena64.Here(p) {
        if n <= 64 {
          return p;
        }
        np := Move(p, n, at, 64);
      } else {
        np := Realloc(p, n, at);
      }
    }
  }
}
