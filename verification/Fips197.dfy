/** The cipher of FIPS 197: its state, its round transformations, its key expansion and the equivalent
    inverse cipher of section 5.3.5. */
module Fips197 {
  import opened AesCircuits

  /** A byte of the state, the highest bit first. */
  type Octet = Slices<bool>

  /** The state, column by column: row r of column c is at r + 4 * c. */
  type State = s: seq<Octet> | |s| == 16 witness seq(16, _ => ZERO)

  function Sum(u: Octet, v: Octet): Octet { Add(BITS, u, v) }

  function Double(u: Octet): Octet { Xtime(BITS, u) }

  // Multiplication by the coefficients of the two column matrices.

  function By3(u: Octet): Octet { Sum(Double(u), u) }
  function By9(u: Octet): Octet { Sum(Double(Double(Double(u))), u) }
  function By11(u: Octet): Octet { Sum(By9(u), Double(u)) }
  function By13(u: Octet): Octet { Sum(By9(u), Double(Double(u))) }
  function By14(u: Octet): Octet { Sum(Sum(Double(Double(Double(u))), Double(Double(u))), Double(u)) }

  /** The place in the same column, k rows further down. */
  function Down(i: nat, k: nat): (j: nat)
    requires i < 16
    ensures j < 16
  {
    i / 4 * 4 + (i + k) % 4
  }

  /** The place in the same row, as many columns further as the number of the row. */
  function Across(i: nat): (j: nat)
    requires i < 16
    ensures j < 16
  {
    (i + 4 * (i % 4)) % 16
  }

  /** The place in the same row, as many columns back. */
  function Back(i: nat): (j: nat)
    requires i < 16
    ensures j < 16
  {
    (i + 4 * (4 - i % 4)) % 16
  }

  function SubBytes(s: State): State { seq(16, i requires 0 <= i < 16 => Sbox(BITS, s[i])) }

  function InvSubBytes(s: State): State { seq(16, i requires 0 <= i < 16 => InvSbox(BITS, s[i])) }

  function ShiftRows(s: State): State { seq(16, i requires 0 <= i < 16 => s[Across(i)]) }

  function InvShiftRows(s: State): State { seq(16, i requires 0 <= i < 16 => s[Back(i)]) }

  function MixColumn(s: State, i: nat): Octet
    requires i < 16
  {
    Sum(Sum(Sum(Double(s[i]), By3(s[Down(i, 1)])), s[Down(i, 2)]), s[Down(i, 3)])
  }

  function MixColumns(s: State): State { seq(16, i requires 0 <= i < 16 => MixColumn(s, i)) }

  function InvMixColumn(s: State, i: nat): Octet
    requires i < 16
  {
    Sum(Sum(Sum(By14(s[i]), By11(s[Down(i, 1)])), By13(s[Down(i, 2)])), By9(s[Down(i, 3)]))
  }

  function InvMixColumns(s: State): State { seq(16, i requires 0 <= i < 16 => InvMixColumn(s, i)) }

  function AddRoundKey(s: State, k: State): State { seq(16, i requires 0 <= i < 16 => Sum(s[i], k[i])) }

  /** Byte r of a word, the most significant one first. */
  function OctetOf(w: bv32, r: nat): Octet
    requires r < 4
  {
    if r == 0 then
      Slices(Bit(w, 31), Bit(w, 30), Bit(w, 29), Bit(w, 28), Bit(w, 27), Bit(w, 26), Bit(w, 25), Bit(w, 24))
    else if r == 1 then
      Slices(Bit(w, 23), Bit(w, 22), Bit(w, 21), Bit(w, 20), Bit(w, 19), Bit(w, 18), Bit(w, 17), Bit(w, 16))
    else if r == 2 then
      Slices(Bit(w, 15), Bit(w, 14), Bit(w, 13), Bit(w, 12), Bit(w, 11), Bit(w, 10), Bit(w, 9), Bit(w, 8))
    else
      Slices(Bit(w, 7), Bit(w, 6), Bit(w, 5), Bit(w, 4), Bit(w, 3), Bit(w, 2), Bit(w, 1), Bit(w, 0))
  }

  /** Four words as the columns of a state. */
  function Columns(w: seq<bv32>): State
    requires |w| == 4
  {
    seq(16, i requires 0 <= i < 16 => OctetOf(w[i / 4], i % 4))
  }

  function RoundKey(w: seq<bv32>, r: nat): State
    requires 4 * r + 4 <= |w|
  {
    Columns(w[4 * r..4 * r + 4])
  }

  /** The first n rounds of the cipher, section 5.1. */
  function Rounds(w: seq<bv32>, n: nat, s: State): State
    requires 4 * n + 4 <= |w|
  {
    if n == 0 then AddRoundKey(s, RoundKey(w, 0))
    else AddRoundKey(MixColumns(ShiftRows(SubBytes(Rounds(w, n - 1, s)))), RoundKey(w, n))
  }

  /** Cipher of section 5.1 on n + 1 rounds. */
  function Cipher(w: seq<bv32>, n: nat, s: State): State
    requires |w| == 4 * n + 8
  {
    AddRoundKey(ShiftRows(SubBytes(Rounds(w, n, s))), RoundKey(w, n + 1))
  }

  function InvRounds(dw: seq<bv32>, n: nat, s: State): State
    requires 4 * n + 4 <= |dw|
  {
    if n == 0 then AddRoundKey(s, RoundKey(dw, 0))
    else AddRoundKey(InvMixColumns(InvShiftRows(InvSubBytes(InvRounds(dw, n - 1, s)))), RoundKey(dw, n))
  }

  /** The equivalent inverse cipher of section 5.3.5, its round keys in the order they are used. */
  function EqInvCipher(dw: seq<bv32>, n: nat, s: State): State
    requires |dw| == 4 * n + 8
  {
    AddRoundKey(InvShiftRows(InvSubBytes(InvRounds(dw, n, s))), RoundKey(dw, n + 1))
  }

  // ---------------------------------------------------------------- bytes and words

  function OctetOfByte(x: bv8): Octet {
    Slices(x & 0x80 != 0, x & 0x40 != 0, x & 0x20 != 0, x & 0x10 != 0, x & 8 != 0, x & 4 != 0, x & 2 != 0, x & 1 != 0)
  }

  function BitIf(b: bool, mask: bv8): bv8 { if b then mask else 0 }

  function ByteOf(o: Octet): bv8 {
    BitIf(o.b0, 0x80) | BitIf(o.b1, 0x40) | BitIf(o.b2, 0x20) | BitIf(o.b3, 0x10)
    | BitIf(o.b4, 8) | BitIf(o.b5, 4) | BitIf(o.b6, 2) | BitIf(o.b7, 1)
  }

  /** Four bytes, the first one most significant. */
  function Word(b0: bv8, b1: bv8, b2: bv8, b3: bv8): bv32 {
    ((b0 as bv32) << 24) | ((b1 as bv32) << 16) | ((b2 as bv32) << 8) | (b3 as bv32)
  }

  // ---------------------------------------------------------------- key expansion

  function SubWord(w: bv32): bv32 {
    Word(ByteOf(Sbox(BITS, OctetOf(w, 0))), ByteOf(Sbox(BITS, OctetOf(w, 1))),
         ByteOf(Sbox(BITS, OctetOf(w, 2))), ByteOf(Sbox(BITS, OctetOf(w, 3))))
  }

  function XorWord(a: bv32, b: bv32): bv32 { a ^ b }

  function RotWord(w: bv32): bv32 { (w << 8) | (w >> 24) }

  /** x to the power j. */
  function Power(j: nat): Octet { if j == 0 then Unit(false, true) else Double(Power(j - 1)) }

  /** The round constant of group j + 1, counted from one in the standard. */
  function Rcon(j: nat): bv32 { Word(ByteOf(Power(j)), 0, 0, 0) }

  /** The number of the group that word i belongs to, the key itself not counted. */
  function GroupNumber(i: nat, n: nat): nat
    requires 0 < n <= i
  {
    (i - n) / n
  }

  /** Word i of the expanded key, section 5.2. */
  function KeyWord(key: seq<bv32>, i: nat): bv32
    requires |key| > 0
  {
    var n := |key|;
    if i < n then key[i]
    else
      var before := KeyWord(key, i - 1);
      var mixed :=
        if i % n == 0 then XorWord(SubWord(RotWord(before)), Rcon(GroupNumber(i, n)))
        else if n > 6 && i % n == 4 then SubWord(before)
        else before;
      XorWord(KeyWord(key, i - n), mixed)
  }

  /** All round keys for a key of 4, 6 or 8 words. */
  function KeyExpansion(key: seq<bv32>): (w: seq<bv32>)
    requires |key| > 0
    ensures |w| == 4 * (|key| + 7)
  {
    seq(4 * (|key| + 7), i requires 0 <= i < 4 * (|key| + 7) => KeyWord(key, i))
  }
}
