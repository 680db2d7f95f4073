/** The bitsliced AES of Botan: the key schedule and the two loops over blocks, two blocks at a time. */
module Aes {
  import opened Wrappers
  import opened AesCircuits
  import S = AesSlices
  import F = Fips197
  import L = AesLanes
  import I = AesInverse

  // ---------------------------------------------------------------- S-box on one word

  function Spread(x: bv32): S.Words {
    Slices((x >> 7) & 0x0101_0101, (x >> 6) & 0x0101_0101, (x >> 5) & 0x0101_0101, (x >> 4) & 0x0101_0101,
           (x >> 3) & 0x0101_0101, (x >> 2) & 0x0101_0101, (x >> 1) & 0x0101_0101, x & 0x0101_0101)
  }

  function Gather(i: S.Words): bv32 {
    ((i.b0 & 0x0101_0101) << 7) | ((i.b1 & 0x0101_0101) << 6) | ((i.b2 & 0x0101_0101) << 5) | ((i.b3 & 0x0101_0101) << 4)
    | ((i.b4 & 0x0101_0101) << 3) | ((i.b5 & 0x0101_0101) << 2) | ((i.b6 & 0x0101_0101) << 1) | (i.b7 & 0x0101_0101)
  }

  /** SE_word. */
  function SeWord(x: bv32): bv32 { Gather(Sbox(WORDS, Spread(x))) }

  /** The octet at place m of eight words. */
  function Column(u: S.Words, m: bv5): F.Octet {
    Slices(Bit(u.b0, m), Bit(u.b1, m), Bit(u.b2, m), Bit(u.b3, m), Bit(u.b4, m), Bit(u.b5, m), Bit(u.b6, m), Bit(u.b7, m))
  }

  lemma Spread0(x: bv32) ensures Column(Spread(x), 24) == F.OctetOf(x, 0) { }

  lemma Spread1(x: bv32) ensures Column(Spread(x), 16) == F.OctetOf(x, 1) { }

  lemma Spread2(x: bv32) ensures Column(Spread(x), 8) == F.OctetOf(x, 2) { }

  lemma Spread3(x: bv32) ensures Column(Spread(x), 0) == F.OctetOf(x, 3) { }

  lemma Gather0(i: S.Words) ensures F.OctetOf(Gather(i), 0) == Column(i, 24) { }

  lemma Gather1(i: S.Words) ensures F.OctetOf(Gather(i), 1) == Column(i, 16) { }

  lemma Gather2(i: S.Words) ensures F.OctetOf(Gather(i), 2) == Column(i, 8) { }

  lemma Gather3(i: S.Words) ensures F.OctetOf(Gather(i), 3) == Column(i, 0) { }

  lemma SboxColumn(u: S.Words, m: bv5)
    ensures Column(Sbox(WORDS, u), m) == Sbox(BITS, Column(u, m))
  {
    hide Sbox, L.Cell, Column, Homomorphism, At;
    AtIsHomomorphism(m);
    SboxMap(WORDS, BITS, At(m), u);
    ColumnIsMap(u, m);
    ColumnIsMap(Sbox(WORDS, u), m);
  }

  lemma ColumnIsMap(u: S.Words, m: bv5)
    ensures Map(At(m), u) == Column(u, m)
  {
    hide Bit;
  }

  lemma OctetsDecide(x: bv32, y: bv32)
    requires forall r: nat | r < 4 :: F.OctetOf(x, r) == F.OctetOf(y, r)
    ensures x == y
  {
    hide F.OctetOf, F.ByteOf, I.ByteAt;
    forall r: nat | r < 4 ensures I.ByteAt(x, r) == I.ByteAt(y, r) {
      I.ByteOctet(x, r);
      I.ByteOctet(y, r);
    }
    BytesDecide(x, y);
  }

  lemma BytesDecide(x: bv32, y: bv32)
    requires forall r: nat | r < 4 :: I.ByteAt(x, r) == I.ByteAt(y, r)
    ensures x == y
  {
    assert I.ByteAt(x, 0) == I.ByteAt(y, 0) && I.ByteAt(x, 1) == I.ByteAt(y, 1);
    assert I.ByteAt(x, 2) == I.ByteAt(y, 2) && I.ByteAt(x, 3) == I.ByteAt(y, 3);
  }

  /** SE_word is the S-box on each of the four bytes. */
  lemma SeWordIsSubWord(x: bv32)
    ensures SeWord(x) == F.SubWord(x)
  {
    hide Sbox, Column, F.OctetOf, Spread, Gather, F.Word, F.ByteOf;
    var i := Sbox(WORDS, Spread(x));
    Spread0(x);
    Spread1(x);
    Spread2(x);
    Spread3(x);
    SboxColumn(Spread(x), 24);
    SboxColumn(Spread(x), 16);
    SboxColumn(Spread(x), 8);
    SboxColumn(Spread(x), 0);
    Gather0(i);
    Gather1(i);
    Gather2(i);
    Gather3(i);
    SubWordOctets(x);
    OctetsDecide(SeWord(x), F.SubWord(x));
  }

  lemma SubWordOctets(w: bv32)
    ensures forall r: nat | r < 4 :: F.OctetOf(F.SubWord(w), r) == Sbox(BITS, F.OctetOf(w, r))
  {
    hide Sbox, F.OctetOf, F.Word, F.ByteOf, F.OctetOfByte;
    var s0, s1 := Sbox(BITS, F.OctetOf(w, 0)), Sbox(BITS, F.OctetOf(w, 1));
    var s2, s3 := Sbox(BITS, F.OctetOf(w, 2)), Sbox(BITS, F.OctetOf(w, 3));
    I.WordOctets(F.ByteOf(s0), F.ByteOf(s1), F.ByteOf(s2), F.ByteOf(s3));
    I.OctetOfByteOf(s0);
    I.OctetOfByteOf(s1);
    I.OctetOfByteOf(s2);
    I.OctetOfByteOf(s3);
  }

  lemma RotWord0(w: bv32) ensures F.OctetOf(F.RotWord(w), 0) == F.OctetOf(w, 1) { }

  lemma RotWord1(w: bv32) ensures F.OctetOf(F.RotWord(w), 1) == F.OctetOf(w, 2) { }

  lemma RotWord2(w: bv32) ensures F.OctetOf(F.RotWord(w), 2) == F.OctetOf(w, 3) { }

  lemma RotWord3(w: bv32) ensures F.OctetOf(F.RotWord(w), 3) == F.OctetOf(w, 0) { }

  lemma RotWordOctets(w: bv32)
    ensures F.OctetOf(F.RotWord(w), 0) == F.OctetOf(w, 1) && F.OctetOf(F.RotWord(w), 1) == F.OctetOf(w, 2)
    ensures F.OctetOf(F.RotWord(w), 2) == F.OctetOf(w, 3) && F.OctetOf(F.RotWord(w), 3) == F.OctetOf(w, 0)
  {
    hide F.OctetOf, F.RotWord;
    RotWord0(w);
    RotWord1(w);
    RotWord2(w);
    RotWord3(w);
  }

  /** The key schedule rotates after the substitution, the standard before it. */
  lemma RotationCommutes(w: bv32)
    ensures F.RotWord(F.SubWord(w)) == F.SubWord(F.RotWord(w))
  {
    hide Sbox, F.OctetOf, F.SubWord, F.RotWord;
    SubWordOctets(w);
    RotWordOctets(F.SubWord(w));
    SubWordOctets(F.RotWord(w));
    RotWordOctets(w);
    OctetsDecide(F.RotWord(F.SubWord(w)), F.SubWord(F.RotWord(w)));
  }

  // ---------------------------------------------------------------- key schedule

  const RC: seq<bv32> := [0x0100_0000, 0x0200_0000, 0x0400_0000, 0x0800_0000, 0x1000_0000,
                          0x2000_0000, 0x4000_0000, 0x8000_0000, 0x1B00_0000, 0x3600_0000]

  function RoundConstant(j: nat): bv32
    requires j < 10
  {
    RC[j]
  }

  /** The round constants are the powers of x. */
  lemma {:induction false} RoundConstants(j: nat)
    requires j < 10
    ensures RoundConstant(j) == F.Word(F.ByteOf(F.Power(j)), 0, 0, 0)
    ensures F.Power(j) == F.OctetOf(RC[j], 0)
  {
    hide F.OctetOf, F.Word, F.ByteOf, F.Double;
    if j > 0 {
      RoundConstants(j - 1);
      Doubled(j);
    } else {
      FirstConstant();
    }
    ConstantWord(j);
  }

  lemma FirstConstant()
    ensures F.OctetOf(RC[0], 0) == Unit(false, true)
  {
  }

  lemma Doubled(j: nat)
    requires 0 < j < 10
    ensures F.Double(F.OctetOf(RC[j - 1], 0)) == F.OctetOf(RC[j], 0)
  {
  }

  lemma ConstantWord(j: nat)
    requires j < 10
    ensures RC[j] == F.Word(F.ByteOf(F.OctetOf(RC[j], 0)), 0, 0, 0)
  {
  }

  /** load_be of word c. */
  function LoadWord(b: seq<bv8>, c: nat): bv32
    requires 4 * c + 4 <= |b|
  {
    F.Word(b[4 * c], b[4 * c + 1], b[4 * c + 2], b[4 * c + 3])
  }

  predicate KeyLength(n: nat) { n == 16 || n == 24 || n == 32 }

  function KeyWordsOf(key: seq<bv8>): seq<bv32> { seq(|key| / 4, c requires 0 <= c < |key| / 4 => LoadWord(key, c)) }

  lemma Group4(i: nat, j: nat)
    requires i % 4 == 0 && j < 4
    ensures (i + j) % 4 == j && (i + 4) % 4 == 0
  {
  }

  lemma Group6(i: nat, j: nat)
    requires i % 6 == 0 && j < 6
    ensures (i + j) % 6 == j && (i + 6) % 6 == 0
  {
  }

  lemma Group8(i: nat, j: nat)
    requires i % 8 == 0 && j < 8
    ensures (i + j) % 8 == j && (i + 8) % 8 == 0
  {
  }

  lemma Group(i: nat, x: nat, j: nat)
    requires (x == 4 || x == 6 || x == 8) && i % x == 0 && j < x
    ensures (i + j) % x == j && (i + x) % x == 0
  {
    if x == 4 {
      Group4(i, j);
    } else if x == 6 {
      Group6(i, j);
    } else {
      Group8(i, j);
    }
  }

  lemma GroupNumber(i: nat, x: nat)
    requires (x == 4 || x == 6 || x == 8) && i % x == 0 && x <= i < 4 * (x + 7)
    ensures 0 <= (i - x) / x < 10
  {
    if x == 4 {
      assert (i - 4) / 4 < 10;
    } else if x == 6 {
      assert (i - 6) / 6 < 10;
    } else {
      assert (i - 8) / 8 < 10;
    }
  }

  lemma XorReorder(a: bv32, b: bv32, c: bv32)
    ensures F.XorWord(F.XorWord(a, b), c) == F.XorWord(a, F.XorWord(c, b))
  {
  }

  /** The first word of a group, in the order the key schedule computes it. */
  lemma FirstInGroup(key: seq<bv32>, i: nat)
    requires (|key| == 4 || |key| == 6 || |key| == 8) && |key| <= i < 4 * (|key| + 7) && i % |key| == 0
    ensures 0 <= (i - |key|) / |key| < 10
    ensures F.KeyWord(key, i)
         == F.XorWord(F.XorWord(F.KeyWord(key, i - |key|), RoundConstant((i - |key|) / |key|)),
                      F.RotWord(SeWord(F.KeyWord(key, i - 1))))
  {
    hide F.SubWord, F.RotWord, SeWord, RoundConstant, F.Word, F.ByteOf, F.Power;
    GroupNumber(i, |key|);
    var before := F.KeyWord(key, i - 1);
    SeWordIsSubWord(before);
    RotationCommutes(before);
    RoundConstants((i - |key|) / |key|);
    XorReorder(F.KeyWord(key, i - |key|), RoundConstant((i - |key|) / |key|), F.SubWord(F.RotWord(before)));
  }

  lemma LaterInGroup(key: seq<bv32>, i: nat, j: nat)
    requires (|key| == 4 || |key| == 6 || |key| == 8) && |key| <= i && i % |key| == 0 && 0 < j < |key|
    ensures F.KeyWord(key, i + j)
         == F.XorWord(F.KeyWord(key, i + j - |key|),
                      if |key| == 8 && j == 4 then SeWord(F.KeyWord(key, i + j - 1)) else F.KeyWord(key, i + j - 1))
  {
    hide F.XorWord, F.SubWord, F.RotWord, SeWord;
    Group(i, |key|, j);
    SeWordIsSubWord(F.KeyWord(key, i + j - 1));
  }

  /** The first half of aes_key_schedule. */
  method ExpandKey(key: seq<bv8>) returns (ek: array<bv32>)
    requires KeyLength(|key|)
    ensures fresh(ek)
    ensures ek[..] == F.KeyExpansion(KeyWordsOf(key))
  {
    hide F.KeyWord, F.RotWord, SeWord, RoundConstant, F.Word;
    ghost var kw := KeyWordsOf(key);
    var x := |key| / 4;
    ek := new bv32[|key| + 28];
    for i := 0 to x
      invariant forall k :: 0 <= k < i ==> ek[k] == kw[k]
    {
      ek[i] := LoadWord(key, i);
    }
    forall k: nat | k < x ensures F.KeyWord(kw, k) == ek[k] {
      FirstWords(kw, k);
    }
    var i := x;
    while i < 4 * (x + 7)
      invariant x <= i && i % x == 0
      invariant forall k :: 0 <= k < i && k < ek.Length ==> ek[k] == F.KeyWord(kw, k)
    {
      FillGroup(ek, kw, x, i);
      Group(i, x, 0);
      i := i + x;
    }
  }

  /** One turn of the expansion: the words from i up to i + x. */
  method FillGroup(ek: array<bv32>, ghost kw: seq<bv32>, x: nat, i: nat)
    requires (x == 4 || x == 6 || x == 8) && |kw| == x && ek.Length == 4 * x + 28
    requires x <= i < ek.Length && i % x == 0
    requires forall k :: 0 <= k < i ==> ek[k] == F.KeyWord(kw, k)
    modifies ek
    ensures forall k :: 0 <= k < i + x && k < ek.Length ==> ek[k] == F.KeyWord(kw, k)
  {
    hide F.XorWord, F.KeyWord, F.RotWord, SeWord, RoundConstant;
    FirstInGroup(kw, i);
    ek[i] := F.XorWord(F.XorWord(ek[i - x], RoundConstant((i - x) / x)), F.RotWord(SeWord(ek[i - 1])));
    var j := 1;
    while j != x && i + j < ek.Length
      invariant 1 <= j <= x
      invariant forall k :: 0 <= k < i + j && k < ek.Length ==> ek[k] == F.KeyWord(kw, k)
      decreases x - j
    {
      LaterInGroup(kw, i, j);
      ek[i + j] := ek[i + j - x];
      if x == 8 && j == 4 {
        ek[i + j] := F.XorWord(ek[i + j], SeWord(ek[i + j - 1]));
      } else {
        ek[i + j] := F.XorWord(ek[i + j], ek[i + j - 1]);
      }
      j := j + 1;
    }
  }

  lemma FirstWords(key: seq<bv32>, i: nat)
    requires i < |key|
    ensures F.KeyWord(key, i) == key[i]
  {
  }

  /** Where key word k of the decryption comes from. */
  function Mirror(rounds: nat, k: nat): (m: nat)
    requires k < 4 * rounds + 4
    ensures m < 4 * rounds + 4
  {
    4 * (rounds - k / 4) + k % 4
  }

  lemma MirrorAt(rounds: nat, i: nat, j: nat)
    requires i % 4 == 0 && i < 4 * rounds + 4 && j < 4
    ensures Mirror(rounds, i + j) == 4 * rounds - i + j
  {
  }

  /** The second half: the keys in reverse order, all but the outer two through InvMixColumn_x4. */
  method ReverseKeys(ek: array<bv32>, rounds: nat) returns (dk: array<bv32>)
    requires rounds > 0 && ek.Length == 4 * rounds + 4
    ensures fresh(dk)
    ensures dk[..] == I.DecryptionSchedule(ek[..], rounds - 1)
  {
    hide S.InvMixColumn, Mirror;
    dk := new bv32[ek.Length];
    var i := 0;
    while i != 4 * (rounds + 1)
      invariant i % 4 == 0 && i <= 4 * (rounds + 1)
      invariant forall k: nat :: k < i ==> dk[k] == ek[Mirror(rounds, k)]
      decreases 4 * (rounds + 1) - i
    {
      CopyFour(dk, i, ek, rounds);
      i := i + 4;
    }
    i := 4;
    while i != 4 * rounds
      invariant i % 4 == 0 && 4 <= i <= 4 * rounds
      invariant forall k: nat :: 4 <= k < i ==> dk[k] == S.InvMixColumn(ek[Mirror(rounds, k)])
      invariant forall k: nat :: k < 4 || i <= k < 4 * rounds + 4 ==> dk[k] == ek[Mirror(rounds, k)]
      decreases 4 * rounds - i
    {
      InvMixColumnX4(dk, i);
      i := i + 4;
    }
    MirrorIsSchedule(ek[..], rounds, dk[..]);
  }

  method CopyFour(dk: array<bv32>, i: nat, ek: array<bv32>, rounds: nat)
    requires ek.Length == dk.Length == 4 * rounds + 4 && ek != dk && i % 4 == 0 && i + 4 <= dk.Length
    modifies dk
    ensures forall k: nat :: k < dk.Length ==> dk[k] == if i <= k < i + 4 then ek[Mirror(rounds, k)] else old(dk[k])
  {
    hide Mirror;
    MirrorAt(rounds, i, 0);
    MirrorAt(rounds, i, 1);
    MirrorAt(rounds, i, 2);
    MirrorAt(rounds, i, 3);
    dk[i] := ek[4 * rounds - i];
    dk[i + 1] := ek[4 * rounds - i + 1];
    dk[i + 2] := ek[4 * rounds - i + 2];
    dk[i + 3] := ek[4 * rounds - i + 3];
  }

  method InvMixColumnX4(x: array<bv32>, i: nat)
    requires i + 4 <= x.Length
    modifies x
    ensures forall k: nat :: k < x.Length ==> x[k] == if i <= k < i + 4 then S.InvMixColumn(old(x[k])) else old(x[k])
  {
    hide S.InvMixColumn;
    x[i] := S.InvMixColumn(x[i]);
    x[i + 1] := S.InvMixColumn(x[i + 1]);
    x[i + 2] := S.InvMixColumn(x[i + 2]);
    x[i + 3] := S.InvMixColumn(x[i + 3]);
  }

  lemma MirrorIsSchedule(w: seq<bv32>, rounds: nat, dw: seq<bv32>)
    requires rounds > 0 && |w| == |dw| == 4 * rounds + 4
    requires forall k: nat :: 4 <= k < 4 * rounds ==> dw[k] == S.InvMixColumn(w[Mirror(rounds, k)])
    requires forall k: nat :: k < 4 || 4 * rounds <= k < 4 * rounds + 4 ==> dw[k] == w[Mirror(rounds, k)]
    ensures dw == I.DecryptionSchedule(w, rounds - 1)
  {
    hide S.InvMixColumn;
    forall k: nat | k < |w| ensures dw[k] == I.DecryptionSchedule(w, rounds - 1)[k] {
      assert Mirror(rounds, k) == 4 * (rounds - k / 4) + k % 4;
      assert 4 <= k < 4 * rounds <==> 1 <= k / 4 <= rounds - 1;
    }
  }

  // ---------------------------------------------------------------- blocks in words

  /** load_be of one block, or of two, into eight words cleared before. */
  function Load(b: seq<bv8>): S.Words
    requires |b| == 16 || |b| == 32
  {
    if |b| == 16 then Slices(LoadWord(b, 0), LoadWord(b, 1), LoadWord(b, 2), LoadWord(b, 3), 0, 0, 0, 0)
    else Slices(LoadWord(b, 0), LoadWord(b, 1), LoadWord(b, 2), LoadWord(b, 3),
                LoadWord(b, 4), LoadWord(b, 5), LoadWord(b, 6), LoadWord(b, 7))
  }

  /** copy_out_be of four words. */
  function Store(w: seq<bv32>): (b: seq<bv8>)
    requires |w| == 4
    ensures |b| == 16
  {
    seq(16, i requires 0 <= i < 16 => I.ByteAt(w[i / 4], i % 4))
  }

  lemma StoreIsBytesOf(w: seq<bv32>)
    requires |w| == 4
    ensures Store(w) == I.BytesOf(F.Columns(w))
  {
    hide F.OctetOf, F.ByteOf, I.ByteAt;
    forall i: nat | i < 16 ensures I.ByteAt(w[i / 4], i % 4) == F.ByteOf(F.OctetOf(w[i / 4], i % 4)) {
      I.ByteOctet(w[i / 4], i % 4);
    }
  }

  lemma LoadWordOctets(b: seq<bv8>, c: nat)
    requires 4 * c + 4 <= |b|
    ensures F.OctetOf(LoadWord(b, c), 0) == F.OctetOfByte(b[4 * c]) && F.OctetOf(LoadWord(b, c), 1) == F.OctetOfByte(b[4 * c + 1])
    ensures F.OctetOf(LoadWord(b, c), 2) == F.OctetOfByte(b[4 * c + 2])
    ensures F.OctetOf(LoadWord(b, c), 3) == F.OctetOfByte(b[4 * c + 3])
  {
    hide F.OctetOf, F.OctetOfByte, F.Word;
    I.WordOctets(b[4 * c], b[4 * c + 1], b[4 * c + 2], b[4 * c + 3]);
  }

  lemma BlockColumns(b: seq<bv8>)
    requires |b| == 16
    ensures F.Columns([LoadWord(b, 0), LoadWord(b, 1), LoadWord(b, 2), LoadWord(b, 3)]) == I.StateOf(b)
  {
    hide F.OctetOf, F.OctetOfByte, LoadWord;
    LoadWordOctets(b, 0);
    LoadWordOctets(b, 1);
    LoadWordOctets(b, 2);
    LoadWordOctets(b, 3);
  }

  /** Block number b of a batch. */
  function Part(batch: seq<bv8>, b: bool): seq<bv8>
    requires |batch| == 32 || (|batch| == 16 && !b)
  {
    if b then batch[16..] else batch[..16]
  }

  lemma LoadColumns(batch: seq<bv8>, b: bool)
    requires |batch| == 32 || (|batch| == 16 && !b)
    ensures F.Columns(L.Half(Load(batch), b)) == I.StateOf(Part(batch, b))
  {
    BlockColumns(Part(batch, b));
    hide F.Columns, I.StateOf, F.Word;
  }

  // ---------------------------------------------------------------- rounds

  predicate ScheduleLength(n: nat) { n == 44 || n == 52 || n == 60 }

  /** The keys are XORed before the transposition at the start and after it at the end. */
  lemma KeyBefore(u: S.Words, k: seq<bv32>, b: bool)
    requires |k| == 4
    ensures L.Lane(S.Transpose(S.Plus(u, S.Doubled(k[0], k[1], k[2], k[3]))), b)
         == F.AddRoundKey(F.Columns(L.Half(u, b)), F.Columns(k))
  {
    hide S.Transpose, S.Plus, F.Columns, F.AddRoundKey, L.Lane;
    var d := S.Doubled(k[0], k[1], k[2], k[3]);
    S.TransposePlus(u, d);
    L.PlusLane(S.Transpose(u), S.Transpose(d), b);
    L.TransposeLane(u, b);
    L.TransposeLane(d, b);
    assert L.Half(d, b) == k;
  }

  lemma KeyAfter(u: S.Words, k: seq<bv32>, b: bool)
    requires |k| == 4
    ensures F.Columns(L.Half(S.Plus(S.Transpose(u), S.Doubled(k[0], k[1], k[2], k[3])), b))
         == F.AddRoundKey(L.Lane(u, b), F.Columns(k))
  {
    hide S.Transpose, S.Plus, F.Columns, F.AddRoundKey, L.Lane, S.Doubled, L.Half;
    var v := S.Plus(S.Transpose(u), S.Doubled(k[0], k[1], k[2], k[3]));
    KeyBefore(S.Transpose(u), k, b);
    L.TransposeLane(v, b);
    L.TransposeLane(S.Transpose(u), b);
    S.TransposeTwice(u);
  }

  lemma RoundLane(u: S.Words, k: seq<bv32>, b: bool)
    requires |k| == 4
    ensures L.Lane(S.Plus(S.MixColumns(S.ShiftRows(Sbox(WORDS, u))), S.KsExpand(k[0], k[1], k[2], k[3])), b)
         == F.AddRoundKey(F.MixColumns(F.ShiftRows(F.SubBytes(L.Lane(u, b)))), F.Columns(k))
  {
    hide Sbox, S.ShiftRows, S.MixColumns, S.Plus, S.KsExpand, L.Lane, F.AddRoundKey, F.MixColumns, F.ShiftRows,
      F.SubBytes, F.Columns;
    var s := Sbox(WORDS, u);
    L.SboxLane(u, b);
    L.ShiftLane(s, b);
    L.MixLane(S.ShiftRows(s), b);
    L.KeyLane(k, b);
    L.PlusLane(S.MixColumns(S.ShiftRows(s)), S.KsExpand(k[0], k[1], k[2], k[3]), b);
  }

  lemma InvRoundLane(u: S.Words, k: seq<bv32>, b: bool)
    requires |k| == 4
    ensures L.Lane(S.Plus(S.InvMixColumns(S.InvShiftRows(InvSbox(WORDS, u))), S.KsExpand(k[0], k[1], k[2], k[3])), b)
         == F.AddRoundKey(F.InvMixColumns(F.InvShiftRows(F.InvSubBytes(L.Lane(u, b)))), F.Columns(k))
  {
    hide InvSbox, S.InvShiftRows, S.InvMixColumns, S.Plus, S.KsExpand, L.Lane, F.AddRoundKey, F.InvMixColumns,
      F.InvShiftRows, F.InvSubBytes, F.Columns;
    var s := InvSbox(WORDS, u);
    L.InvSboxLane(u, b);
    L.InvShiftLane(s, b);
    L.InvMixLane(S.InvShiftRows(s), b);
    L.KeyLane(k, b);
    L.PlusLane(S.InvMixColumns(S.InvShiftRows(s)), S.KsExpand(k[0], k[1], k[2], k[3]), b);
  }

  /** The round keys between the first and the last, in slices. */
  method ExpandRoundKeys(ek: seq<bv32>, n: nat) returns (ks: seq<S.Words>)
    requires |ek| == 4 * n + 8
    ensures |ks| == n
    ensures forall r: nat :: r < n ==> ks[r] == S.KsExpand(ek[4 * r + 4], ek[4 * r + 5], ek[4 * r + 6], ek[4 * r + 7])
  {
    hide S.KsExpand;
    ks := [];
    for i := 0 to n
      invariant |ks| == i
      invariant forall r: nat :: r < i ==> ks[r] == S.KsExpand(ek[4 * r + 4], ek[4 * r + 5], ek[4 * r + 6], ek[4 * r + 7])
    {
      ks := ks + [S.KsExpand(ek[4 * i + 4], ek[4 * i + 5], ek[4 * i + 6], ek[4 * i + 7])];
    }
  }

  /** The two states of a batch under the cipher, whatever the other one is. */
  ghost predicate Enciphered(ek: seq<bv32>, n: nat, before: S.Words, after: S.Words, b: bool)
    requires |ek| == 4 * n + 8
  {
    F.Columns(L.Half(after, b)) == F.Cipher(ek, n, F.Columns(L.Half(before, b)))
  }

  ghost predicate Deciphered(dk: seq<bv32>, n: nat, before: S.Words, after: S.Words, b: bool)
    requires |dk| == 4 * n + 8
  {
    F.Columns(L.Half(after, b)) == F.EqInvCipher(dk, n, F.Columns(L.Half(before, b)))
  }

  lemma FirstStep(ek: seq<bv32>, n: nat, u: S.Words, b: bool)
    requires |ek| == 4 * n + 8
    ensures L.Lane(S.Transpose(S.Plus(u, S.Doubled(ek[0], ek[1], ek[2], ek[3]))), b)
         == F.Rounds(ek, 0, F.Columns(L.Half(u, b)))
  {
    hide S.Plus, S.Transpose, S.Doubled, L.Lane, L.Half, F.AddRoundKey, F.Columns;
    KeyBefore(u, ek[4 * 0..4 * 0 + 4], b);
  }

  lemma Step(ek: seq<bv32>, n: nat, r: nat, s: F.State, u: S.Words, b: bool)
    requires |ek| == 4 * n + 8 && r < n && L.Lane(u, b) == F.Rounds(ek, r, s)
    ensures L.Lane(S.Plus(S.MixColumns(S.ShiftRows(Sbox(WORDS, u))),
                          S.KsExpand(ek[4 * r + 4], ek[4 * r + 5], ek[4 * r + 6], ek[4 * r + 7])), b)
         == F.Rounds(ek, r + 1, s)
  {
    hide Sbox, S.ShiftRows, S.MixColumns, S.Plus, S.KsExpand, L.Lane, F.AddRoundKey, F.MixColumns, F.ShiftRows,
      F.SubBytes, F.Columns;
    RoundLane(u, ek[4 * (r + 1)..4 * (r + 1) + 4], b);
  }

  lemma LastStep(ek: seq<bv32>, n: nat, s: F.State, u: S.Words, b: bool)
    requires |ek| == 4 * n + 8 && L.Lane(u, b) == F.Rounds(ek, n, s)
    ensures F.Columns(L.Half(S.Plus(S.Transpose(S.ShiftRows(Sbox(WORDS, u))),
                                    S.Doubled(ek[4 * n + 4], ek[4 * n + 5], ek[4 * n + 6], ek[4 * n + 7])), b))
         == F.Cipher(ek, n, s)
  {
    hide Sbox, S.ShiftRows, S.Plus, S.Transpose, S.Doubled, L.Lane, L.Half, F.Rounds, F.AddRoundKey, F.ShiftRows,
      F.SubBytes, F.Columns;
    L.SboxLane(u, b);
    L.ShiftLane(Sbox(WORDS, u), b);
    KeyAfter(S.ShiftRows(Sbox(WORDS, u)), ek[4 * (n + 1)..4 * (n + 1) + 4], b);
  }

  lemma InvFirstStep(dk: seq<bv32>, n: nat, u: S.Words, b: bool)
    requires |dk| == 4 * n + 8
    ensures L.Lane(S.Transpose(S.Plus(u, S.Doubled(dk[0], dk[1], dk[2], dk[3]))), b)
         == F.InvRounds(dk, 0, F.Columns(L.Half(u, b)))
  {
    hide S.Plus, S.Transpose, S.Doubled, L.Lane, L.Half, F.AddRoundKey, F.Columns;
    KeyBefore(u, dk[4 * 0..4 * 0 + 4], b);
  }

  lemma InvStep(dk: seq<bv32>, n: nat, r: nat, s: F.State, u: S.Words, b: bool)
    requires |dk| == 4 * n + 8 && r < n && L.Lane(u, b) == F.InvRounds(dk, r, s)
    ensures L.Lane(S.Plus(S.InvMixColumns(S.InvShiftRows(InvSbox(WORDS, u))),
                          S.KsExpand(dk[4 * r + 4], dk[4 * r + 5], dk[4 * r + 6], dk[4 * r + 7])), b)
         == F.InvRounds(dk, r + 1, s)
  {
    hide InvSbox, S.InvShiftRows, S.InvMixColumns, S.Plus, S.KsExpand, L.Lane, F.AddRoundKey, F.InvMixColumns,
      F.InvShiftRows, F.InvSubBytes, F.Columns;
    InvRoundLane(u, dk[4 * (r + 1)..4 * (r + 1) + 4], b);
  }

  lemma InvLastStep(dk: seq<bv32>, n: nat, s: F.State, u: S.Words, b: bool)
    requires |dk| == 4 * n + 8 && L.Lane(u, b) == F.InvRounds(dk, n, s)
    ensures F.Columns(L.Half(S.Plus(S.Transpose(S.InvShiftRows(InvSbox(WORDS, u))),
                                    S.Doubled(dk[4 * n + 4], dk[4 * n + 5], dk[4 * n + 6], dk[4 * n + 7])), b))
         == F.EqInvCipher(dk, n, s)
  {
    hide InvSbox, S.InvShiftRows, S.Plus, S.Transpose, S.Doubled, L.Lane, L.Half, F.InvRounds, F.AddRoundKey,
      F.InvShiftRows, F.InvSubBytes, F.Columns;
    L.InvSboxLane(u, b);
    L.InvShiftLane(InvSbox(WORDS, u), b);
    KeyAfter(S.InvShiftRows(InvSbox(WORDS, u)), dk[4 * (n + 1)..4 * (n + 1) + 4], b);
  }

  /** The body of the block loop of aes_encrypt_n. */
  method EncryptBatch(ek: seq<bv32>, ks: seq<S.Words>, before: S.Words) returns (w: S.Words)
    requires |ek| == 4 * |ks| + 8
    requires forall r: nat :: r < |ks| ==> ks[r] == S.KsExpand(ek[4 * r + 4], ek[4 * r + 5], ek[4 * r + 6], ek[4 * r + 7])
    ensures Enciphered(ek, |ks|, before, w, false) && Enciphered(ek, |ks|, before, w, true)
  {
    hide Sbox, S.ShiftRows, S.MixColumns, S.Plus, S.KsExpand, S.Transpose, S.Doubled, L.Lane, L.Half, F.Rounds,
      F.Columns, F.Cipher;
    var n := |ks|;
    ghost var s, t := F.Columns(L.Half(before, false)), F.Columns(L.Half(before, true));
    FirstStep(ek, n, before, false);
    FirstStep(ek, n, before, true);
    w := S.Plus(before, S.Doubled(ek[0], ek[1], ek[2], ek[3]));
    w := S.Transpose(w);
    for r := 0 to n
      invariant L.Lane(w, false) == F.Rounds(ek, r, s) && L.Lane(w, true) == F.Rounds(ek, r, t)
    {
      Step(ek, n, r, s, w, false);
      Step(ek, n, r, t, w, true);
      w := Sbox(WORDS, w);
      w := S.ShiftRows(w);
      w := S.MixColumns(w);
      w := S.Plus(w, ks[r]);
    }
    LastStep(ek, n, s, w, false);
    LastStep(ek, n, t, w, true);
    w := Sbox(WORDS, w);
    w := S.ShiftRows(w);
    w := S.Transpose(w);
    w := S.Plus(w, S.Doubled(ek[4 * n + 4], ek[4 * n + 5], ek[4 * n + 6], ek[4 * n + 7]));
  }

  /** The body of the block loop of aes_decrypt_n. */
  method DecryptBatch(dk: seq<bv32>, ks: seq<S.Words>, before: S.Words) returns (w: S.Words)
    requires |dk| == 4 * |ks| + 8
    requires forall r: nat :: r < |ks| ==> ks[r] == S.KsExpand(dk[4 * r + 4], dk[4 * r + 5], dk[4 * r + 6], dk[4 * r + 7])
    ensures Deciphered(dk, |ks|, before, w, false) && Deciphered(dk, |ks|, before, w, true)
  {
    hide InvSbox, S.InvShiftRows, S.InvMixColumns, S.Plus, S.KsExpand, S.Transpose, S.Doubled, L.Lane, L.Half,
      F.InvRounds, F.Columns, F.EqInvCipher;
    var n := |ks|;
    ghost var s, t := F.Columns(L.Half(before, false)), F.Columns(L.Half(before, true));
    InvFirstStep(dk, n, before, false);
    InvFirstStep(dk, n, before, true);
    w := S.Plus(before, S.Doubled(dk[0], dk[1], dk[2], dk[3]));
    w := S.Transpose(w);
    for r := 0 to n
      invariant L.Lane(w, false) == F.InvRounds(dk, r, s) && L.Lane(w, true) == F.InvRounds(dk, r, t)
    {
      InvStep(dk, n, r, s, w, false);
      InvStep(dk, n, r, t, w, true);
      w := InvSbox(WORDS, w);
      w := S.InvShiftRows(w);
      w := S.InvMixColumns(w);
      w := S.Plus(w, ks[r]);
    }
    InvLastStep(dk, n, s, w, false);
    InvLastStep(dk, n, t, w, true);
    w := InvSbox(WORDS, w);
    w := S.InvShiftRows(w);
    w := S.Transpose(w);
    w := S.Plus(w, S.Doubled(dk[4 * n + 4], dk[4 * n + 5], dk[4 * n + 6], dk[4 * n + 7]));
  }
  // ---------------------------------------------------------------- blocks in memory

  /** One block through the cipher of FIPS 197. */
  function CipherBlock(ek: seq<bv32>, b: seq<bv8>): (c: seq<bv8>)
    requires ScheduleLength(|ek|) && |b| == 16
    ensures |c| == 16
  {
    I.BytesOf(F.Cipher(ek, |ek| / 4 - 2, I.StateOf(b)))
  }

  function DecipherBlock(dk: seq<bv32>, c: seq<bv8>): (b: seq<bv8>)
    requires ScheduleLength(|dk|) && |c| == 16
    ensures |b| == 16
  {
    I.BytesOf(F.EqInvCipher(dk, |dk| / 4 - 2, I.StateOf(c)))
  }

  lemma EncipheredBytes(ek: seq<bv32>, batch: seq<bv8>, after: S.Words, b: bool)
    requires ScheduleLength(|ek|) && (|batch| == 32 || (|batch| == 16 && !b))
    requires Enciphered(ek, |ek| / 4 - 2, Load(batch), after, b)
    ensures Store(L.Half(after, b)) == CipherBlock(ek, Part(batch, b))
  {
    hide F.Columns, F.Cipher, I.StateOf, I.BytesOf, Store, Load, L.Half;
    LoadColumns(batch, b);
    StoreIsBytesOf(L.Half(after, b));
  }

  lemma DecipheredBytes(dk: seq<bv32>, batch: seq<bv8>, after: S.Words, b: bool)
    requires ScheduleLength(|dk|) && (|batch| == 32 || (|batch| == 16 && !b))
    requires Deciphered(dk, |dk| / 4 - 2, Load(batch), after, b)
    ensures Store(L.Half(after, b)) == DecipherBlock(dk, Part(batch, b))
  {
    hide F.Columns, F.EqInvCipher, I.StateOf, I.BytesOf, Store, Load, L.Half;
    LoadColumns(batch, b);
    StoreIsBytesOf(L.Half(after, b));
  }

  /** copy_out_be of the first `blocks` blocks of w. */
  method CopyOut(out: array<bv8>, at: nat, blocks: nat, w: S.Words)
    requires 1 <= blocks <= 2 && at + 16 * blocks <= out.Length
    modifies out
    ensures out[at..at + 16] == Store(L.Half(w, false))
    ensures blocks == 2 ==> out[at + 16..at + 32] == Store(L.Half(w, true))
    ensures out[..at] == old(out[..at]) && out[at + 16 * blocks..] == old(out[at + 16 * blocks..])
  {
    hide Store, L.Half;
    var bytes := Store(L.Half(w, false)) + Store(L.Half(w, true));
    for i := 0 to 16 * blocks
      invariant out[at..at + i] == bytes[..i]
      invariant out[..at] == old(out[..at]) && out[at + i..] == old(out[at + i..])
    {
      ghost var was := out[..];
      out[at + i] := bytes[i];
      assert out[at..at + i + 1] == was[at..at + i] + [bytes[i]];
      assert out[at + i + 1..] == was[at + i..][1..];
    }
    assert out[at..at + 16] == out[at..at + 16 * blocks][..16];
    assert blocks == 2 ==> out[at + 16..at + 32] == out[at..at + 16 * blocks][16..];
  }

  lemma SameSlices(a: seq<bv8>, b: seq<bv8>, at: nat, n: nat)
    requires |a| == |b| && at + n <= |a| && (n == 16 || n == 32) && a[at..] == b[at..]
    ensures a[at..at + 16] == b[at..at + 16] && (n == 32 ==> a[at + 16..at + 32] == b[at + 16..at + 32])
  {
    assert a[at..at + 16] == a[at..][..16] && b[at..at + 16] == b[at..][..16];
    assert n == 32 ==> a[at + 16..at + 32] == a[at..][16..32] && b[at + 16..at + 32] == b[at..][16..32];
  }

  lemma SameTails(a: seq<bv8>, b: seq<bv8>, c: seq<bv8>, at: nat, n: nat)
    requires |a| == |b| == |c| && at + n <= |a| && a[at + n..] == b[at + n..] && b[at..] == c[at..]
    ensures a[at + n..] == c[at + n..]
  {
    assert b[at + n..] == b[at..][n..] && c[at + n..] == c[at..][n..];
  }

  /** The first `done` blocks of the output are the cipher of those of the input. */
  ghost predicate CipherDone(out: seq<bv8>, input: seq<bv8>, done: nat, ek: seq<bv32>)
    requires ScheduleLength(|ek|) && 16 * done <= |input| && 16 * done <= |out|
  {
    forall i: nat :: i < done ==> out[16 * i..16 * i + 16] == CipherBlock(ek, input[16 * i..16 * i + 16])
  }

  lemma CipherDoneMore(was: seq<bv8>, out: seq<bv8>, input: seq<bv8>, done: nat, n: nat, ek: seq<bv32>)
    requires ScheduleLength(|ek|) && 1 <= n <= 2
    requires 16 * (done + n) <= |input| && 16 * (done + n) <= |out| == |was|
    requires CipherDone(was, input, done, ek) && out[..16 * done] == was[..16 * done]
    requires out[16 * done..16 * done + 16] == CipherBlock(ek, input[16 * done..16 * done + 16])
    requires n == 2 ==> out[16 * done + 16..16 * done + 32] == CipherBlock(ek, input[16 * done + 16..16 * done + 32])
    ensures CipherDone(out, input, done + n, ek)
  {
    hide CipherBlock;
    forall i: nat | i < done + n ensures out[16 * i..16 * i + 16] == CipherBlock(ek, input[16 * i..16 * i + 16]) {
      if i < done {
        assert out[16 * i..16 * i + 16] == out[..16 * done][16 * i..16 * i + 16];
        assert was[16 * i..16 * i + 16] == was[..16 * done][16 * i..16 * i + 16];
      }
    }
  }

  /** One turn of the block loop, on n blocks from number `done`. */
  method EncryptStep(input: array<bv8>, out: array<bv8>, done: nat, n: nat, ek: seq<bv32>, ks: seq<S.Words>)
    requires ScheduleLength(|ek|) && |ek| == 4 * |ks| + 8
    requires forall r: nat :: r < |ks| ==> ks[r] == S.KsExpand(ek[4 * r + 4], ek[4 * r + 5], ek[4 * r + 6], ek[4 * r + 7])
    requires 1 <= n <= 2 && 16 * (done + n) <= input.Length && 16 * (done + n) <= out.Length
    modifies out
    ensures out[16 * done..16 * done + 16] == CipherBlock(ek, old(input[16 * done..16 * done + 16]))
    ensures n == 2 ==> out[16 * done + 16..16 * done + 32] == CipherBlock(ek, old(input[16 * done + 16..16 * done + 32]))
    ensures out[..16 * done] == old(out[..16 * done]) && out[16 * (done + n)..] == old(out[16 * (done + n)..])
  {
    hide S.KsExpand, CipherBlock, Store, Load, L.Half, Enciphered;
    var batch := input[16 * done..16 * done + 16 * n];
    var w := EncryptBatch(ek, ks, Load(batch));
    EncipheredBytes(ek, batch, w, false);
    assert Part(batch, false) == old(input[16 * done..16 * done + 16]);
    if n == 2 {
      EncipheredBytes(ek, batch, w, true);
      assert Part(batch, true) == old(input[16 * done + 16..16 * done + 32]);
    }
    CopyOut(out, 16 * done, n, w);
  }

  /** aes_encrypt_n: every block of the input through the cipher, in place or not. */
  method EncryptN(input: array<bv8>, out: array<bv8>, blocks: nat, ek: seq<bv32>)
    requires ScheduleLength(|ek|) && 16 * blocks <= input.Length && 16 * blocks <= out.Length
    modifies out
    ensures CipherDone(out[..], old(input[..]), blocks, ek)
    ensures out[16 * blocks..] == old(out[16 * blocks..])
  {
    hide S.KsExpand, CipherBlock, CipherDone;
    var ks := ExpandRoundKeys(ek, |ek| / 4 - 2);
    var done, left := 0, blocks;
    CipherDoneNone(out[..], input[..], ek);
    while left > 0
      invariant done + left == blocks
      invariant CipherDone(out[..], old(input[..]), done, ek)
      invariant input[16 * done..] == old(input[16 * done..]) && out[16 * done..] == old(out[16 * done..])
    {
      var n := Min(left, 2);
      ghost var was, before := out[..], input[..];
      SameSlices(before, old(input[..]), 16 * done, 16 * n);
      EncryptStep(input, out, done, n, ek, ks);
      CipherDoneMore(was, out[..], old(input[..]), done, n, ek);
      SameTails(out[..], was, old(out[..]), 16 * done, 16 * n);
      if input == out {
        SameTails(input[..], before, old(input[..]), 16 * done, 16 * n);
      } else {
        SameTails(before, before, old(input[..]), 16 * done, 16 * n);
      }
      done, left := done + n, left - n;
    }
  }

  lemma CipherDoneNone(out: seq<bv8>, input: seq<bv8>, ek: seq<bv32>)
    requires ScheduleLength(|ek|)
    ensures CipherDone(out, input, 0, ek)
  {
  }

  /** The first `done` blocks of the output are the equivalent inverse cipher of those of the input. */
  ghost predicate DecipherDone(out: seq<bv8>, input: seq<bv8>, done: nat, dk: seq<bv32>)
    requires ScheduleLength(|dk|) && 16 * done <= |input| && 16 * done <= |out|
  {
    forall i: nat :: i < done ==> out[16 * i..16 * i + 16] == DecipherBlock(dk, input[16 * i..16 * i + 16])
  }

  lemma DecipherDoneMore(was: seq<bv8>, out: seq<bv8>, input: seq<bv8>, done: nat, n: nat, dk: seq<bv32>)
    requires ScheduleLength(|dk|) && 1 <= n <= 2
    requires 16 * (done + n) <= |input| && 16 * (done + n) <= |out| == |was|
    requires DecipherDone(was, input, done, dk) && out[..16 * done] == was[..16 * done]
    requires out[16 * done..16 * done + 16] == DecipherBlock(dk, input[16 * done..16 * done + 16])
    requires n == 2 ==> out[16 * done + 16..16 * done + 32] == DecipherBlock(dk, input[16 * done + 16..16 * done + 32])
    ensures DecipherDone(out, input, done + n, dk)
  {
    hide DecipherBlock;
    forall i: nat | i < done + n ensures out[16 * i..16 * i + 16] == DecipherBlock(dk, input[16 * i..16 * i + 16]) {
      if i < done {
        assert out[16 * i..16 * i + 16] == out[..16 * done][16 * i..16 * i + 16];
        assert was[16 * i..16 * i + 16] == was[..16 * done][16 * i..16 * i + 16];
      }
    }
  }

  /** One turn of the block loop, on n blocks from number `done`. */
  method DecryptStep(input: array<bv8>, out: array<bv8>, done: nat, n: nat, dk: seq<bv32>, ks: seq<S.Words>)
    requires ScheduleLength(|dk|) && |dk| == 4 * |ks| + 8
    requires forall r: nat :: r < |ks| ==> ks[r] == S.KsExpand(dk[4 * r + 4], dk[4 * r + 5], dk[4 * r + 6], dk[4 * r + 7])
    requires 1 <= n <= 2 && 16 * (done + n) <= input.Length && 16 * (done + n) <= out.Length
    modifies out
    ensures out[16 * done..16 * done + 16] == DecipherBlock(dk, old(input[16 * done..16 * done + 16]))
    ensures n == 2 ==> out[16 * done + 16..16 * done + 32] == DecipherBlock(dk, old(input[16 * done + 16..16 * done + 32]))
    ensures out[..16 * done] == old(out[..16 * done]) && out[16 * (done + n)..] == old(out[16 * (done + n)..])
  {
    hide S.KsExpand, DecipherBlock, Store, Load, L.Half, Deciphered;
    var batch := input[16 * done..16 * done + 16 * n];
    var w := DecryptBatch(dk, ks, Load(batch));
    DecipheredBytes(dk, batch, w, false);
    assert Part(batch, false) == old(input[16 * done..16 * done + 16]);
    if n == 2 {
      DecipheredBytes(dk, batch, w, true);
      assert Part(batch, true) == old(input[16 * done + 16..16 * done + 32]);
    }
    CopyOut(out, 16 * done, n, w);
  }

  /** aes_decrypt_n: every block of the input through the equivalent inverse cipher, in place or not. */
  method DecryptN(input: array<bv8>, out: array<bv8>, blocks: nat, dk: seq<bv32>)
    requires ScheduleLength(|dk|) && 16 * blocks <= input.Length && 16 * blocks <= out.Length
    modifies out
    ensures DecipherDone(out[..], old(input[..]), blocks, dk)
    ensures out[16 * blocks..] == old(out[16 * blocks..])
  {
    hide S.KsExpand, DecipherBlock, DecipherDone;
    var ks := ExpandRoundKeys(dk, |dk| / 4 - 2);
    var done, left := 0, blocks;
    DecipherDoneNone(out[..], input[..], dk);
    while left > 0
      invariant done + left == blocks
      invariant DecipherDone(out[..], old(input[..]), done, dk)
      invariant input[16 * done..] == old(input[16 * done..]) && out[16 * done..] == old(out[16 * done..])
    {
      var n := Min(left, 2);
      ghost var was, before := out[..], input[..];
      SameSlices(before, old(input[..]), 16 * done, 16 * n);
      DecryptStep(input, out, done, n, dk, ks);
      DecipherDoneMore(was, out[..], old(input[..]), done, n, dk);
      SameTails(out[..], was, old(out[..]), 16 * done, 16 * n);
      if input == out {
        SameTails(input[..], before, old(input[..]), 16 * done, 16 * n);
      } else {
        SameTails(before, before, old(input[..]), 16 * done, 16 * n);
      }
      done, left := done + n, left - n;
    }
  }

  lemma DecipherDoneNone(out: seq<bv8>, input: seq<bv8>, dk: seq<bv32>)
    requires ScheduleLength(|dk|)
    ensures DecipherDone(out, input, 0, dk)
  {
  }

  /** With the two schedules of one key, decryption undoes encryption. */
  lemma DecipherUndoesCipher(ek: seq<bv32>, b: seq<bv8>)
    requires ScheduleLength(|ek|) && |b| == 16
    ensures DecipherBlock(I.DecryptionSchedule(ek, |ek| / 4 - 2), CipherBlock(ek, b)) == b
  {
    hide F.Cipher, F.EqInvCipher, I.DecryptionSchedule, I.StateOf, I.BytesOf;
    var n := |ek| / 4 - 2;
    var s := F.Cipher(ek, n, I.StateOf(b));
    I.StateOfBytesOf(s);
    I.EqInvCipherUndoes(ek, n, I.StateOf(b));
    I.BytesOfStateOf(b);
  }

  /** A key schedule, an encryption and a decryption of any number of blocks give back the blocks. */
  method RoundTrip(key: seq<bv8>, data: array<bv8>, blocks: nat)
    requires KeyLength(|key|) && 16 * blocks == data.Length
    modifies data
    ensures data[..] == old(data[..])
  {
    hide CipherBlock, DecipherBlock, I.DecryptionSchedule, F.KeyWord;
    var ek := ExpandKey(key);
    var dk := ReverseKeys(ek, |key| / 4 + 6);
    ghost var w := ek[..];
    EncryptN(data, data, blocks, ek[..]);
    ghost var sent := data[..];
    DecryptN(data, data, blocks, dk[..]);
    forall i: nat | i < blocks ensures data[16 * i..16 * i + 16] == old(data[16 * i..16 * i + 16]) {
      assert sent[16 * i..16 * i + 16] == CipherBlock(w, old(data[16 * i..16 * i + 16]));
      DecipherUndoesCipher(w, old(data[16 * i..16 * i + 16]));
    }
    BlocksDecide(data[..], old(data[..]), blocks);
  }

  lemma BlocksDecide(a: seq<bv8>, b: seq<bv8>, blocks: nat)
    requires |a| == |b| == 16 * blocks
    requires forall i: nat :: i < blocks ==> a[16 * i..16 * i + 16] == b[16 * i..16 * i + 16]
    ensures a == b
  {
    forall k | 0 <= k < |a| ensures a[k] == b[k] {
      var i := k / 16;
      assert a[16 * i..16 * i + 16][k - 16 * i] == b[16 * i..16 * i + 16][k - 16 * i];
    }
  }
}
