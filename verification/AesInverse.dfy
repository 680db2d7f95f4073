/** The equivalent inverse cipher undoes the cipher, for any round keys. */
module AesInverse {
  import opened AesCircuits
  import S = AesSlices
  import opened Fips197
  import L = AesLanes

  // ---------------------------------------------------------------- bytes, words and octets

  lemma OctetOfByteOf(o: Octet)
    ensures OctetOfByte(ByteOf(o)) == o
  {
  }

  lemma ByteOfOctetOf(x: bv8)
    ensures ByteOf(OctetOfByte(x)) == x
  {
  }

  /** Byte r of a word, as store_be writes it. */
  function ByteAt(w: bv32, r: nat): bv8
    requires r < 4
  {
    if r == 0 then (w >> 24) as bv8 else if r == 1 then ((w >> 16) & 0xFF) as bv8
    else if r == 2 then ((w >> 8) & 0xFF) as bv8 else (w & 0xFF) as bv8
  }

  lemma WordByte0(b0: bv8, b1: bv8, b2: bv8, b3: bv8)
    ensures OctetOf(Word(b0, b1, b2, b3), 0) == OctetOfByte(b0)
  {
  }

  lemma WordByte1(b0: bv8, b1: bv8, b2: bv8, b3: bv8)
    ensures OctetOf(Word(b0, b1, b2, b3), 1) == OctetOfByte(b1)
  {
  }

  lemma WordByte2(b0: bv8, b1: bv8, b2: bv8, b3: bv8)
    ensures OctetOf(Word(b0, b1, b2, b3), 2) == OctetOfByte(b2)
  {
  }

  lemma WordByte3(b0: bv8, b1: bv8, b2: bv8, b3: bv8)
    ensures OctetOf(Word(b0, b1, b2, b3), 3) == OctetOfByte(b3)
  {
  }

  lemma ByteOctet0(w: bv32)
    ensures OctetOfByte(ByteAt(w, 0)) == OctetOf(w, 0)
  {
  }

  lemma ByteOctet1(w: bv32)
    ensures OctetOfByte(ByteAt(w, 1)) == OctetOf(w, 1)
  {
  }

  lemma ByteOctet2(w: bv32)
    ensures OctetOfByte(ByteAt(w, 2)) == OctetOf(w, 2)
  {
  }

  lemma ByteOctet3(w: bv32)
    ensures OctetOfByte(ByteAt(w, 3)) == OctetOf(w, 3)
  {
  }

  lemma WordOctets(b0: bv8, b1: bv8, b2: bv8, b3: bv8)
    ensures OctetOf(Word(b0, b1, b2, b3), 0) == OctetOfByte(b0)
    ensures OctetOf(Word(b0, b1, b2, b3), 1) == OctetOfByte(b1)
    ensures OctetOf(Word(b0, b1, b2, b3), 2) == OctetOfByte(b2)
    ensures OctetOf(Word(b0, b1, b2, b3), 3) == OctetOfByte(b3)
  {
    hide Word, OctetOf, OctetOfByte;
    WordByte0(b0, b1, b2, b3);
    WordByte1(b0, b1, b2, b3);
    WordByte2(b0, b1, b2, b3);
    WordByte3(b0, b1, b2, b3);
  }

  lemma ByteOctet(w: bv32, r: nat)
    requires r < 4
    ensures ByteOf(OctetOf(w, r)) == ByteAt(w, r)
  {
    hide ByteAt, OctetOf, OctetOfByte, ByteOf;
    ByteOctet0(w);
    ByteOctet1(w);
    ByteOctet2(w);
    ByteOctet3(w);
    ByteOfOctetOf(ByteAt(w, r));
  }

  function StateOf(b: seq<bv8>): State
    requires |b| == 16
  {
    seq(16, i requires 0 <= i < 16 => OctetOfByte(b[i]))
  }

  function BytesOf(s: State): (b: seq<bv8>)
    ensures |b| == 16
  {
    seq(16, i requires 0 <= i < 16 => ByteOf(s[i]))
  }

  lemma StateOfBytesOf(s: State)
    ensures StateOf(BytesOf(s)) == s
  {
    hide OctetOfByte, ByteOf;
    forall i: nat | i < 16 ensures OctetOfByte(ByteOf(s[i])) == s[i] {
      OctetOfByteOf(s[i]);
    }
  }

  lemma BytesOfStateOf(b: seq<bv8>)
    requires |b| == 16
    ensures BytesOf(StateOf(b)) == b
  {
    hide OctetOfByte, ByteOf;
    forall i: nat | i < 16 ensures ByteOf(OctetOfByte(b[i])) == b[i] {
      ByteOfOctetOf(b[i]);
    }
  }

  // ---------------------------------------------------------------- every state is a lane

  function Packed(s: State, c: nat): bv32
    requires c < 4
  {
    Word(ByteOf(s[4 * c]), ByteOf(s[4 * c + 1]), ByteOf(s[4 * c + 2]), ByteOf(s[4 * c + 3]))
  }

  lemma PackedOctets(s: State, c: nat)
    requires c < 4
    ensures OctetOf(Packed(s, c), 0) == s[4 * c] && OctetOf(Packed(s, c), 1) == s[4 * c + 1]
    ensures OctetOf(Packed(s, c), 2) == s[4 * c + 2] && OctetOf(Packed(s, c), 3) == s[4 * c + 3]
  {
    hide OctetOf, Word, ByteOf, OctetOfByte;
    WordOctets(ByteOf(s[4 * c]), ByteOf(s[4 * c + 1]), ByteOf(s[4 * c + 2]), ByteOf(s[4 * c + 3]));
    OctetOfByteOf(s[4 * c]);
    OctetOfByteOf(s[4 * c + 1]);
    OctetOfByteOf(s[4 * c + 2]);
    OctetOfByteOf(s[4 * c + 3]);
  }

  lemma PackedColumns(s: State)
    ensures Columns([Packed(s, 0), Packed(s, 1), Packed(s, 2), Packed(s, 3)]) == s
  {
    hide OctetOf, Packed;
    PackedOctets(s, 0);
    PackedOctets(s, 1);
    PackedOctets(s, 2);
    PackedOctets(s, 3);
  }

  /** Slices that hold the state twice. */
  function Wide(s: State): S.Words { S.KsExpand(Packed(s, 0), Packed(s, 1), Packed(s, 2), Packed(s, 3)) }

  lemma WideLane(s: State)
    ensures L.Lane(Wide(s), false) == s
  {
    hide S.KsExpand, L.Lane, Columns, Packed;
    PackedColumns(s);
    L.KeyLane([Packed(s, 0), Packed(s, 1), Packed(s, 2), Packed(s, 3)], false);
  }

  // ---------------------------------------------------------------- the inverse transformations

  lemma InvMixUndoes(s: State)
    ensures InvMixColumns(MixColumns(s)) == s
  {
    hide InvMixColumns, MixColumns, L.Lane, S.MixColumns, S.InvMixColumns, Wide;
    var u := Wide(s);
    WideLane(s);
    L.MixLane(u, false);
    L.InvMixLane(S.MixColumns(u), false);
    S.InvMixUndoes(u);
  }

  lemma InvMixLinear(s: State, k: State)
    ensures InvMixColumns(AddRoundKey(s, k)) == AddRoundKey(InvMixColumns(s), InvMixColumns(k))
  {
    hide InvMixColumns, AddRoundKey, L.Lane, S.Plus, S.MixColumns, S.InvMixColumns, Wide;
    var u, v := Wide(s), Wide(k);
    WideLane(s);
    WideLane(k);
    L.PlusLane(u, v, false);
    L.InvMixLane(u, false);
    L.InvMixLane(v, false);
    L.InvMixLane(S.Plus(u, v), false);
    L.PlusLane(S.InvMixColumns(u), S.InvMixColumns(v), false);
    S.MixLinear(u, v);
  }

  lemma AddTwice(s: State, k: State)
    ensures AddRoundKey(AddRoundKey(s, k), k) == s
  {
    hide AddRoundKey, L.Lane, S.Plus, Wide;
    var u, v := Wide(s), Wide(k);
    WideLane(s);
    WideLane(k);
    L.PlusLane(u, v, false);
    L.PlusLane(S.Plus(u, v), v, false);
    S.PlusAlgebra(u, v, v, v);
  }

  /** The inverse substitution and the inverse shift, in either order, undo the two forward ones. */
  lemma InvShiftSubUndoes(s: State)
    ensures InvShiftRows(InvSubBytes(ShiftRows(SubBytes(s)))) == s
  {
    hide Sbox, InvSbox, Across, Back;
    forall i: nat | i < 16 ensures InvSbox(BITS, Sbox(BITS, s[i])) == s[i] && Across(Back(i)) == i {
      InverseOnBits(s[i]);
      L.AcrossBack(i);
    }
    var e := ShiftRows(SubBytes(s));
    forall i: nat | i < 16 ensures InvShiftRows(InvSubBytes(e))[i] == s[i] {
      assert e[Back(i)] == SubBytes(s)[Across(Back(i))];
    }
  }

  // ---------------------------------------------------------------- the round keys of decryption

  /** The round keys in reverse order, all but the first and the last through InvMixColumns. */
  function DecryptionSchedule(w: seq<bv32>, n: nat): (dw: seq<bv32>)
    requires |w| == 4 * n + 8
    ensures |dw| == |w|
  {
    seq(|w|, i requires 0 <= i < |w| => ScheduleWord(w, n, i / 4, i % 4))
  }

  function ScheduleWord(w: seq<bv32>, n: nat, r: nat, j: nat): bv32
    requires |w| == 4 * n + 8 && r <= n + 1 && j < 4
  {
    var k := w[4 * (n + 1 - r) + j];
    if 1 <= r <= n then S.InvMixColumn(k) else k
  }

  lemma ScheduleAt(w: seq<bv32>, n: nat, r: nat, j: nat)
    requires |w| == 4 * n + 8 && r <= n + 1 && j < 4
    ensures DecryptionSchedule(w, n)[4 * r + j] == ScheduleWord(w, n, r, j)
  {
    hide ScheduleWord;
    assert (4 * r + j) / 4 == r && (4 * r + j) % 4 == j;
  }

  lemma ScheduleSlice(w: seq<bv32>, n: nat, r: nat)
    requires |w| == 4 * n + 8 && r <= n + 1
    ensures DecryptionSchedule(w, n)[4 * r..4 * r + 4]
         == [ScheduleWord(w, n, r, 0), ScheduleWord(w, n, r, 1), ScheduleWord(w, n, r, 2), ScheduleWord(w, n, r, 3)]
  {
    hide DecryptionSchedule, ScheduleWord;
    ScheduleAt(w, n, r, 0);
    ScheduleAt(w, n, r, 1);
    ScheduleAt(w, n, r, 2);
    ScheduleAt(w, n, r, 3);
    FourWords(DecryptionSchedule(w, n), 4 * r);
  }

  lemma FourWords(s: seq<bv32>, i: nat)
    requires i + 4 <= |s|
    ensures s[i..i + 4] == [s[i], s[i + 1], s[i + 2], s[i + 3]]
  {
  }

  lemma ColumnsOfInvMix(k: seq<bv32>)
    requires |k| == 4
    ensures Columns([S.InvMixColumn(k[0]), S.InvMixColumn(k[1]), S.InvMixColumn(k[2]), S.InvMixColumn(k[3])])
         == InvMixColumns(Columns(k))
  {
    hide InvMixColumns, Columns, S.InvMixColumn, S.KsExpand, S.InvMixColumns, L.Lane;
    S.DecryptionKeys(k[0], k[1], k[2], k[3]);
    L.KeyLane(k, false);
    L.KeyLane([S.InvMixColumn(k[0]), S.InvMixColumn(k[1]), S.InvMixColumn(k[2]), S.InvMixColumn(k[3])], false);
    L.InvMixLane(S.KsExpand(k[0], k[1], k[2], k[3]), false);
  }

  lemma KeyWords(w: seq<bv32>, n: nat, r: nat)
    requires |w| == 4 * n + 8 && r <= n + 1
    ensures RoundKey(DecryptionSchedule(w, n), r)
         == if 1 <= r <= n then InvMixColumns(RoundKey(w, n + 1 - r)) else RoundKey(w, n + 1 - r)
  {
    hide InvMixColumns, Columns, S.InvMixColumn, DecryptionSchedule;
    ScheduleSlice(w, n, r);
    var k := w[4 * (n + 1 - r)..4 * (n + 1 - r) + 4];
    if 1 <= r <= n {
      ColumnsOfInvMix(k);
    } else {
      assert k == [k[0], k[1], k[2], k[3]];
    }
  }

  lemma {:induction false} InvRoundsUndo(w: seq<bv32>, n: nat, r: nat, s: State)
    requires |w| == 4 * n + 8 && r <= n
    ensures InvRounds(DecryptionSchedule(w, n), r, Cipher(w, n, s)) == ShiftRows(SubBytes(Rounds(w, n - r, s)))
  {
    hide InvMixColumns, MixColumns, InvShiftRows, InvSubBytes, ShiftRows, SubBytes, AddRoundKey, RoundKey, DecryptionSchedule;
    var dw := DecryptionSchedule(w, n);
    KeyWords(w, n, r);
    if r == 0 {
      AddTwice(ShiftRows(SubBytes(Rounds(w, n, s))), RoundKey(w, n + 1));
    } else {
      InvRoundsUndo(w, n, r - 1, s);
      var e := ShiftRows(SubBytes(Rounds(w, n - r, s)));
      var k := RoundKey(w, n + 1 - r);
      InvShiftSubUndoes(Rounds(w, n + 1 - r, s));
      InvMixLinear(MixColumns(e), k);
      InvMixUndoes(e);
      AddTwice(e, InvMixColumns(k));
    }
  }

  /** Section 5.3.5 of FIPS 197: with the decryption round keys, the equivalent inverse cipher undoes the cipher. */
  lemma EqInvCipherUndoes(w: seq<bv32>, n: nat, s: State)
    requires |w| == 4 * n + 8
    ensures EqInvCipher(DecryptionSchedule(w, n), n, Cipher(w, n, s)) == s
  {
    hide InvRounds, InvMixColumns, MixColumns, InvShiftRows, InvSubBytes, ShiftRows, SubBytes, AddRoundKey, RoundKey,
      DecryptionSchedule, Cipher;
    KeyWords(w, n, n + 1);
    InvRoundsUndo(w, n, n, s);
    InvShiftSubUndoes(Rounds(w, 0, s));
    AddTwice(s, RoundKey(w, 0));
  }
}
