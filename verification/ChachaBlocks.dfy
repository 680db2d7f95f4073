/** The ChaCha block function, one block at a time and in vector lanes, and the block counter that
    runs over two words. */
module ChachaBlocks {
  import opened OctetStrings
  import opened Words

  // ---------------------------------------------------------------- the words

  type Word = bv32

  function Add(a: Word, b: Word): Word { a + b }

  function XorWord(a: Word, b: Word): Word { a ^ b }

  // Left rotations.
  function Rotl16(x: Word): Word { (x << 16) | (x >> 16) }
  function Rotl12(x: Word): Word { (x << 12) | (x >> 20) }
  function Rotl8(x: Word): Word { (x << 8) | (x >> 24) }
  function Rotl7(x: Word): Word { (x << 7) | (x >> 25) }

  datatype Quad = Quad(a: Word, b: Word, c: Word, d: Word)

  function QuarterRound(a: Word, b: Word, c: Word, d: Word): Quad {
    var a1 := Add(a, b);
    var d1 := Rotl16(XorWord(d, a1));
    var c1 := Add(c, d1);
    var b1 := Rotl12(XorWord(b, c1));
    var a2 := Add(a1, b1);
    var d2 := Rotl8(XorWord(d1, a2));
    var c2 := Add(c1, d2);
    var b2 := Rotl7(XorWord(b1, c2));
    Quad(a2, b2, c2, d2)
  }

  /** The sixteen words that the rounds work on. */
  datatype Matrix = Matrix(x00: Word, x01: Word, x02: Word, x03: Word, x04: Word, x05: Word, x06: Word, x07: Word,
                           x08: Word, x09: Word, x10: Word, x11: Word, x12: Word, x13: Word, x14: Word, x15: Word)

  function Columns(s: Matrix): Matrix {
    var p := QuarterRound(s.x00, s.x04, s.x08, s.x12);
    var q := QuarterRound(s.x01, s.x05, s.x09, s.x13);
    var r := QuarterRound(s.x02, s.x06, s.x10, s.x14);
    var t := QuarterRound(s.x03, s.x07, s.x11, s.x15);
    Matrix(p.a, q.a, r.a, t.a, p.b, q.b, r.b, t.b, p.c, q.c, r.c, t.c, p.d, q.d, r.d, t.d)
  }

  function Diagonals(s: Matrix): Matrix {
    var p := QuarterRound(s.x00, s.x05, s.x10, s.x15);
    var q := QuarterRound(s.x01, s.x06, s.x11, s.x12);
    var r := QuarterRound(s.x02, s.x07, s.x08, s.x13);
    var t := QuarterRound(s.x03, s.x04, s.x09, s.x14);
    Matrix(p.a, q.a, r.a, t.a, t.b, p.b, q.b, r.b, r.c, t.c, p.c, q.c, q.d, r.d, t.d, p.d)
  }

  function DoubleRounds(s: Matrix, n: nat): Matrix {
    if n == 0 then s else Diagonals(Columns(DoubleRounds(s, n - 1)))
  }

  function Sum(s: Matrix, t: Matrix): Matrix {
    Matrix(Add(s.x00, t.x00), Add(s.x01, t.x01), Add(s.x02, t.x02), Add(s.x03, t.x03),
           Add(s.x04, t.x04), Add(s.x05, t.x05), Add(s.x06, t.x06), Add(s.x07, t.x07),
           Add(s.x08, t.x08), Add(s.x09, t.x09), Add(s.x10, t.x10), Add(s.x11, t.x11),
           Add(s.x12, t.x12), Add(s.x13, t.x13), Add(s.x14, t.x14), Add(s.x15, t.x15))
  }

  /** The words in little-endian order. */
  function Serialize(s: Matrix): (b: seq<byte>)
    ensures |b| == 64
  {
    Store(s.x00) + Store(s.x01) + Store(s.x02) + Store(s.x03) + Store(s.x04) + Store(s.x05) + Store(s.x06) + Store(s.x07)
    + Store(s.x08) + Store(s.x09) + Store(s.x10) + Store(s.x11) + Store(s.x12) + Store(s.x13) + Store(s.x14) + Store(s.x15)
  }

  /** The state between blocks.  Words 12 and 13 are the block counter, low word first, and kept as numbers. */
  datatype State = State(x00: Word, x01: Word, x02: Word, x03: Word, x04: Word, x05: Word, x06: Word, x07: Word,
                         x08: Word, x09: Word, x10: Word, x11: Word, x12: u32, x13: u32, x14: Word, x15: Word)

  function Bits(n: u32): Word { n as bv32 }

  function Words16(s: State): Matrix {
    Matrix(s.x00, s.x01, s.x02, s.x03, s.x04, s.x05, s.x06, s.x07,
           s.x08, s.x09, s.x10, s.x11, Bits(s.x12), Bits(s.x13), s.x14, s.x15)
  }

  /** The block function of section 2.3 of RFC 8439. */
  function Block(s: State, rounds: nat): (b: seq<byte>)
    ensures |b| == 64
  {
    Serialize(Sum(DoubleRounds(Words16(s), rounds / 2), Words16(s)))
  }

  // ---------------------------------------------------------------- the counter

  /** Addition of counter words. */
  function Plus(a: u32, b: u32): u32 { U32(a + b) }

  /** The state for the k-th block after s: a 64-bit counter in words 12 and 13. */
  function Ahead(s: State, k: nat): State {
    s.(x12 := U32(s.x12 + k), x13 := U32(s.x13 + (s.x12 + k) / 0x1_0000_0000))
  }

  lemma AheadAhead(s: State, j: nat, k: nat)
    ensures Ahead(Ahead(s, j), k) == Ahead(s, j + k)
    ensures Ahead(s, 0) == s
  {
    CountTwice(s.x12, s.x13, j, k);
    hide U32;
  }

  /** Counting on by j and then by k, in both words. */
  lemma CountTwice(low: u32, high: u32, j: nat, k: nat)
    ensures U32(U32(low + j) + k) == U32(low + (j + k))
    ensures U32(U32(high + (low + j) / 0x1_0000_0000) + (U32(low + j) + k) / 0x1_0000_0000) == U32(high + (low + (j + k)) / 0x1_0000_0000)
    ensures U32(low + 0) == low && U32(high + (low + 0) / 0x1_0000_0000) == high
  {
    var v := low + j;
    CarryTwice(v, k);
    WrapTwice(high, v / 0x1_0000_0000, (v % 0x1_0000_0000 + k) / 0x1_0000_0000);
  }

  lemma CarryTwice(v: nat, k: nat)
    ensures (v % 0x1_0000_0000 + k) % 0x1_0000_0000 == (v + k) % 0x1_0000_0000
    ensures v / 0x1_0000_0000 + (v % 0x1_0000_0000 + k) / 0x1_0000_0000 == (v + k) / 0x1_0000_0000
  {
  }

  lemma WrapTwice(x: nat, a: nat, b: nat)
    ensures U32(U32(x + a) + b) == U32(x + (a + b))
  {
  }

  /** The lane counters of the vector code: lane l carries if it lies beyond the room in the low word. */
  lemma LaneCounter(s: State, l: nat)
    requires l < 0x1_0000_0000
    ensures Ahead(s, l) == s.(x12 := Plus(s.x12, l), x13 := Plus(s.x13, if 0xFFFF_FFFF - s.x12 < l then 1 else 0))
  {
    assert (s.x12 + l) / 0x1_0000_0000 == if 0xFFFF_FFFF - s.x12 < l then 1 else 0;
    hide U32;
  }

  /** The step of the vector code by n blocks. */
  lemma LanesStep(s: State, n: nat)
    requires n < 0x1_0000_0000
    ensures Ahead(s, n) == s.(x12 := Plus(s.x12, n), x13 := if Plus(s.x12, n) < n then Plus(s.x13, 1) else s.x13)
  {
  }

  /** The step of the scalar loop: ++ with a carry when the low word has wrapped to zero. */
  lemma ScalarStep(s: State)
    ensures Ahead(s, 1) == s.(x12 := Plus(s.x12, 1), x13 := Plus(s.x13, if Plus(s.x12, 1) == 0 then 1 else 0))
  {
    LanesStep(s, 1);
    assert U32(s.x13 + 0) == s.x13;
    hide Ahead;
  }

  /** The keystream blocks from s on. */
  function Blocks(s: State, rounds: nat, n: nat): (b: seq<byte>)
    ensures |b| == 64 * n
  {
    if n == 0 then [] else Blocks(s, rounds, n - 1) + Block(Ahead(s, n - 1), rounds)
  }

  /** Blocks made in two goes. */
  lemma {:induction false} BlocksSplit(s: State, rounds: nat, m: nat, n: nat)
    ensures Blocks(s, rounds, m + n) == Blocks(s, rounds, m) + Blocks(Ahead(s, m), rounds, n)
    decreases n
  {
    hide Block, Ahead;
    if n == 0 {
    } else {
      BlocksSplit(s, rounds, m, n - 1);
      AheadAhead(s, m, n - 1);
    }
  }

  // ---------------------------------------------------------------- one block at a time

  method ScalarBlock(s: State, rounds: nat) returns (output: seq<byte>)
    requires rounds % 2 == 0
    ensures output == Block(s, rounds)
  {
    hide QuarterRound, Add, Serialize, Bits;
    var input := Words16(s);
    var x := input;
    for r := 0 to rounds / 2
      invariant x == DoubleRounds(input, r)
    {
      var p := QuarterRound(x.x00, x.x04, x.x08, x.x12);
      var q := QuarterRound(x.x01, x.x05, x.x09, x.x13);
      var t := QuarterRound(x.x02, x.x06, x.x10, x.x14);
      var u := QuarterRound(x.x03, x.x07, x.x11, x.x15);
      var p' := QuarterRound(p.a, q.b, t.c, u.d);
      var q' := QuarterRound(q.a, t.b, u.c, p.d);
      var t' := QuarterRound(t.a, u.b, p.c, q.d);
      var u' := QuarterRound(u.a, p.b, q.c, t.d);
      x := Matrix(p'.a, q'.a, t'.a, u'.a, u'.b, p'.b, q'.b, t'.b, t'.c, u'.c, p'.c, q'.c, q'.d, t'.d, u'.d, p'.d);
    }
    x := Sum(x, input);
    output := Serialize(x);
  }

  // ---------------------------------------------------------------- vector lanes

  /** One register of a vector unit: the same word of several blocks. */
  type Vec = seq<Word>

  function VAdd(a: Vec, b: Vec): (r: Vec)
    requires |a| == |b|
    ensures |r| == |a|
  {
    seq(|a|, l requires 0 <= l < |a| => Add(a[l], b[l]))
  }

  function VXor(a: Vec, b: Vec): (r: Vec)
    requires |a| == |b|
    ensures |r| == |a|
  {
    seq(|a|, l requires 0 <= l < |a| => XorWord(a[l], b[l]))
  }

  function VRotl16(a: Vec): (r: Vec)
    ensures |r| == |a|
  {
    seq(|a|, l requires 0 <= l < |a| => Rotl16(a[l]))
  }

  function VRotl12(a: Vec): (r: Vec)
    ensures |r| == |a|
  {
    seq(|a|, l requires 0 <= l < |a| => Rotl12(a[l]))
  }

  function VRotl8(a: Vec): (r: Vec)
    ensures |r| == |a|
  {
    seq(|a|, l requires 0 <= l < |a| => Rotl8(a[l]))
  }

  function VRotl7(a: Vec): (r: Vec)
    ensures |r| == |a|
  {
    seq(|a|, l requires 0 <= l < |a| => Rotl7(a[l]))
  }

  function Splat(w: Word, n: nat): (r: Vec)
    ensures |r| == n && forall l :: 0 <= l < n ==> r[l] == w
  {
    seq(n, _ => w)
  }

  /** A quarter round in every lane of four registers. */
  predicate InLanes(a: Vec, b: Vec, c: Vec, d: Vec, a': Vec, b': Vec, c': Vec, d': Vec) {
    && |a| == |b| == |c| == |d| == |a'| == |b'| == |c'| == |d'|
    && forall l :: 0 <= l < |a| ==> Quad(a'[l], b'[l], c'[l], d'[l]) == QuarterRound(a[l], b[l], c[l], d[l])
  }

  /** The steps of a quarter round on one register of each row are a quarter round in every lane. */
  lemma OneColumn(a: Vec, b: Vec, c: Vec, d: Vec)
    requires |a| == |b| == |c| == |d|
    ensures var a1 := VAdd(a, b);
            var d1 := VRotl16(VXor(d, a1));
            var c1 := VAdd(c, d1);
            var b1 := VRotl12(VXor(b, c1));
            var a2 := VAdd(a1, b1);
            var d2 := VRotl8(VXor(d1, a2));
            var c2 := VAdd(c1, d2);
            var b2 := VRotl7(VXor(b1, c2));
            InLanes(a, b, c, d, a2, b2, c2, d2)
  {
    hide Add, XorWord, Rotl16, Rotl12, Rotl8, Rotl7;
  }

  /** Four columns or diagonals at once, the steps of the four quarter rounds interleaved. */
  method FourQuarterRounds(a: seq<Vec>, b: seq<Vec>, c: seq<Vec>, d: seq<Vec>, n: nat)
    returns (a': seq<Vec>, b': seq<Vec>, c': seq<Vec>, d': seq<Vec>)
    requires |a| == |b| == |c| == |d| == 4
    requires forall k :: 0 <= k < 4 ==> |a[k]| == |b[k]| == |c[k]| == |d[k]| == n
    ensures |a'| == |b'| == |c'| == |d'| == 4
    ensures InLanes(a[0], b[0], c[0], d[0], a'[0], b'[0], c'[0], d'[0])
    ensures InLanes(a[1], b[1], c[1], d[1], a'[1], b'[1], c'[1], d'[1])
    ensures InLanes(a[2], b[2], c[2], d[2], a'[2], b'[2], c'[2], d'[2])
    ensures InLanes(a[3], b[3], c[3], d[3], a'[3], b'[3], c'[3], d'[3])
  {
    hide QuarterRound, InLanes, VAdd, VXor, VRotl16, VRotl12, VRotl8, VRotl7;
    var a0, a1, a2, a3 := a[0], a[1], a[2], a[3];
    var b0, b1, b2, b3 := b[0], b[1], b[2], b[3];
    var c0, c1, c2, c3 := c[0], c[1], c[2], c[3];
    var d0, d1, d2, d3 := d[0], d[1], d[2], d[3];
    a0, a1, a2, a3 := VAdd(a0, b0), VAdd(a1, b1), VAdd(a2, b2), VAdd(a3, b3);
    d0, d1, d2, d3 := VXor(d0, a0), VXor(d1, a1), VXor(d2, a2), VXor(d3, a3);
    d0, d1, d2, d3 := VRotl16(d0), VRotl16(d1), VRotl16(d2), VRotl16(d3);
    c0, c1, c2, c3 := VAdd(c0, d0), VAdd(c1, d1), VAdd(c2, d2), VAdd(c3, d3);
    b0, b1, b2, b3 := VXor(b0, c0), VXor(b1, c1), VXor(b2, c2), VXor(b3, c3);
    b0, b1, b2, b3 := VRotl12(b0), VRotl12(b1), VRotl12(b2), VRotl12(b3);
    a0, a1, a2, a3 := VAdd(a0, b0), VAdd(a1, b1), VAdd(a2, b2), VAdd(a3, b3);
    d0, d1, d2, d3 := VXor(d0, a0), VXor(d1, a1), VXor(d2, a2), VXor(d3, a3);
    d0, d1, d2, d3 := VRotl8(d0), VRotl8(d1), VRotl8(d2), VRotl8(d3);
    c0, c1, c2, c3 := VAdd(c0, d0), VAdd(c1, d1), VAdd(c2, d2), VAdd(c3, d3);
    b0, b1, b2, b3 := VXor(b0, c0), VXor(b1, c1), VXor(b2, c2), VXor(b3, c3);
    b0, b1, b2, b3 := VRotl7(b0), VRotl7(b1), VRotl7(b2), VRotl7(b3);
    OneColumn(a[0], b[0], c[0], d[0]);
    OneColumn(a[1], b[1], c[1], d[1]);
    OneColumn(a[2], b[2], c[2], d[2]);
    OneColumn(a[3], b[3], c[3], d[3]);
    a', b', c', d' := [a0, a1, a2, a3], [b0, b1, b2, b3], [c0, c1, c2, c3], [d0, d1, d2, d3];
  }

  /** The four rows of registers, four registers each, with n lanes. */
  datatype Registers = Registers(a: seq<Vec>, b: seq<Vec>, c: seq<Vec>, d: seq<Vec>) {
    predicate Lanes(n: nat) {
      && |a| == |b| == |c| == |d| == 4
      && forall k :: 0 <= k < 4 ==> |a[k]| == |b[k]| == |c[k]| == |d[k]| == n
    }

    /** What lane l holds. */
    function Lane(n: nat, l: nat): Matrix
      requires Lanes(n) && l < n
    {
      Matrix(a[0][l], a[1][l], a[2][l], a[3][l], b[0][l], b[1][l], b[2][l], b[3][l],
             c[0][l], c[1][l], c[2][l], c[3][l], d[0][l], d[1][l], d[2][l], d[3][l])
    }
  }

  /** A double round on all lanes: columns, then diagonals by renaming registers. */
  method LanesDoubleRound(x: Registers, n: nat) returns (y: Registers)
    requires x.Lanes(n)
    ensures y.Lanes(n) && forall l :: 0 <= l < n ==> y.Lane(n, l) == Diagonals(Columns(x.Lane(n, l)))
  {
    hide QuarterRound;
    var a, b, c, d := FourQuarterRounds(x.a, x.b, x.c, x.d, n);
    var a', b', c', d' := FourQuarterRounds(a, [b[1], b[2], b[3], b[0]], [c[2], c[3], c[0], c[1]], [d[3], d[0], d[1], d[2]], n);
    y := Registers(a', [b'[3], b'[0], b'[1], b'[2]], [c'[2], c'[3], c'[0], c'[1]], [d'[1], d'[2], d'[3], d'[0]]);
  }

  /** A vector of counter words. */
  type Counters = seq<u32>

  /** The low counter words of n lanes: the lane number is added. */
  function LowWords(low: u32, n: nat): (v: Counters)
    requires n < 0x1_0000_0000
    ensures |v| == n && forall l :: 0 <= l < n ==> v[l] == Plus(low, l)
  {
    seq<u32>(n, l requires 0 <= l < n => Plus(low, l))
  }

  /** The high counter words: one more in every lane beyond the room in the low word. */
  function HighWords(low: u32, high: u32, n: nat): (v: Counters)
    requires n < 0x1_0000_0000
    ensures |v| == n && forall l :: 0 <= l < n ==> v[l] == Plus(high, if 0xFFFF_FFFF - low < l then 1 else 0)
  {
    seq<u32>(n, l requires 0 <= l < n => Plus(high, if 0xFFFF_FFFF - low < l then 1 else 0))
  }

  function VBits(v: Counters): (r: Vec)
    ensures |r| == |v| && forall l :: 0 <= l < |v| ==> r[l] == Bits(v[l])
  {
    seq(|v|, l requires 0 <= l < |v| => Bits(v[l]))
  }

  /** The state in every lane, with the counter of the lane. */
  function Spread(s: State, n: nat): (x: Registers)
    requires n < 0x1_0000_0000
    ensures x.Lanes(n) && forall l :: 0 <= l < n ==> x.Lane(n, l) == Words16(Ahead(s, l))
  {
    var x := Registers(
      [Splat(s.x00, n), Splat(s.x01, n), Splat(s.x02, n), Splat(s.x03, n)],
      [Splat(s.x04, n), Splat(s.x05, n), Splat(s.x06, n), Splat(s.x07, n)],
      [Splat(s.x08, n), Splat(s.x09, n), Splat(s.x10, n), Splat(s.x11, n)],
      [VBits(LowWords(s.x12, n)), VBits(HighWords(s.x12, s.x13, n)), Splat(s.x14, n), Splat(s.x15, n)]);
    SpreadLanes(s, x, n);
    x
  }

  lemma SpreadLanes(s: State, x: Registers, n: nat)
    requires n < 0x1_0000_0000 && x.Lanes(n)
    requires x.a == [Splat(s.x00, n), Splat(s.x01, n), Splat(s.x02, n), Splat(s.x03, n)]
    requires x.b == [Splat(s.x04, n), Splat(s.x05, n), Splat(s.x06, n), Splat(s.x07, n)]
    requires x.c == [Splat(s.x08, n), Splat(s.x09, n), Splat(s.x10, n), Splat(s.x11, n)]
    requires x.d == [VBits(LowWords(s.x12, n)), VBits(HighWords(s.x12, s.x13, n)), Splat(s.x14, n), Splat(s.x15, n)]
    ensures forall l :: 0 <= l < n ==> x.Lane(n, l) == Words16(Ahead(s, l))
  {
    hide Ahead, Plus, Bits;
    forall l | 0 <= l < n ensures x.Lane(n, l) == Words16(Ahead(s, l)) {
      LaneCounter(s, l);
    }
  }

  /** n blocks at once. */
  method LaneBlocks(s: State, rounds: nat, n: nat) returns (output: seq<byte>, next: State)
    requires rounds % 2 == 0 && 0 < n < 0x1_0000_0000
    ensures output == Blocks(s, rounds, n) && next == Ahead(s, n)
  {
    hide Ahead, Plus, Columns, Diagonals, Serialize, Words16;
    var start := Spread(s, n);
    var x := start;
    for r := 0 to rounds / 2
      invariant x.Lanes(n)
      invariant forall l :: 0 <= l < n ==> x.Lane(n, l) == DoubleRounds(Words16(Ahead(s, l)), r)
    {
      x := LanesDoubleRound(x, n);
    }
    output := AddAndStore(x, start, n, s, rounds);
    LanesStep(s, n);
    var low := Plus(s.x12, n);
    next := s.(x12 := low);
    if low < n {
      next := next.(x13 := Plus(next.x13, 1));
    }
  }

  /** Adds the original registers, transposes and stores: lane after lane. */
  method AddAndStore(x: Registers, start: Registers, n: nat, ghost s: State, ghost rounds: nat) returns (output: seq<byte>)
    requires x.Lanes(n) && start.Lanes(n)
    requires forall l :: 0 <= l < n ==> start.Lane(n, l) == Words16(Ahead(s, l)) && x.Lane(n, l) == DoubleRounds(Words16(Ahead(s, l)), rounds / 2)
    ensures output == Blocks(s, rounds, n)
  {
    hide Ahead, Plus, Columns, Diagonals, Serialize, DoubleRounds, Words16;
    output := [];
    for l := 0 to n
      invariant output == Blocks(s, rounds, l)
    {
      assert Block(Ahead(s, l), rounds) == Serialize(Sum(x.Lane(n, l), start.Lane(n, l)));
      output := output + Serialize(Sum(x.Lane(n, l), start.Lane(n, l)));
    }
  }

  /** What the processor offers. */
  datatype Features = Features(avx512: bool, avx2: bool, simd32: bool)

  /** Any number of blocks, as many at a time as the processor can, the rest one by one. */
  method Chacha(s: State, rounds: nat, blocks: nat, cpu: Features) returns (output: seq<byte>, next: State)
    requires rounds % 2 == 0
    ensures output == Blocks(s, rounds, blocks) && next == Ahead(s, blocks)
  {
    hide Ahead, Block, Blocks;
    output, next := [], s;
    var left := blocks;
    NoBlocks(s, rounds);
    AheadAhead(s, 0, 0);
    if cpu.avx512 {
      output, next, left := WholeLanes(s, rounds, output, next, left, blocks, 16);
    }
    if cpu.avx2 {
      output, next, left := WholeLanes(s, rounds, output, next, left, blocks, 8);
    }
    if cpu.simd32 {
      output, next, left := WholeLanes(s, rounds, output, next, left, blocks, 4);
    }
    for i := 0 to left
      invariant next == Ahead(s, blocks - left + i) && output == Blocks(s, rounds, blocks - left + i)
    {
      OneMore(s, rounds, blocks - left + i);
      var block := ScalarBlock(next, rounds);
      output := output + block;
      AheadAhead(s, blocks - left + i, 1);
      ScalarStep(next);
      var low := Plus(next.x12, 1);
      next := next.(x12 := low, x13 := Plus(next.x13, if low == 0 then 1 else 0));
    }
  }

  method WholeLanes(ghost s: State, rounds: nat, output: seq<byte>, state: State, left: nat, ghost blocks: nat, lanes: nat)
    returns (output': seq<byte>, state': State, left': nat)
    requires rounds % 2 == 0 && left <= blocks && 0 < lanes < 0x1_0000_0000
    requires state == Ahead(s, blocks - left) && output == Blocks(s, rounds, blocks - left)
    ensures left' <= left && state' == Ahead(s, blocks - left') && output' == Blocks(s, rounds, blocks - left')
  {
    hide Ahead, Block, Blocks;
    output', state', left' := output, state, left;
    while left' >= lanes
      invariant left' <= left && state' == Ahead(s, blocks - left') && output' == Blocks(s, rounds, blocks - left')
    {
      BlocksSplit(s, rounds, blocks - left', lanes);
      AheadAhead(s, blocks - left', lanes);
      var more;
      more, state' := LaneBlocks(state', rounds, lanes);
      output' := output' + more;
      left' := left' - lanes;
    }
  }

  lemma NoBlocks(s: State, rounds: nat)
    ensures Blocks(s, rounds, 0) == []
  {
  }

  lemma OneMore(s: State, rounds: nat, n: nat)
    ensures Blocks(s, rounds, n + 1) == Blocks(s, rounds, n) + Block(Ahead(s, n), rounds)
  {
  }
}
