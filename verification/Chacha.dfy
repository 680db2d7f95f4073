/** ChaCha as a stream: key and nonce set-up, buffered blocks, arbitrary pieces. */
module ChachaStream {
  import opened Words
  import opened Wrappers
  import opened ChachaBlocks
  import opened OctetStrings

  // ---------------------------------------------------------------- the keystream

  /** Byte i of the keystream that starts with state s. */
  function Key(s: State, rounds: nat, i: nat): byte {
    Block(Ahead(s, i / 64), rounds)[i % 64]
  }

  function KeyBytes(s: State, rounds: nat, from: nat, n: nat): (b: seq<byte>)
    ensures |b| == n
  {
    seq<byte>(n, j requires 0 <= j < n => Key(s, rounds, from + j))
  }

  lemma KeyBytesSplit(s: State, rounds: nat, from: nat, m: nat, n: nat)
    ensures KeyBytes(s, rounds, from, m + n) == KeyBytes(s, rounds, from, m) + KeyBytes(s, rounds, from + m, n)
    ensures KeyBytes(s, rounds, from, m + n)[m..] == KeyBytes(s, rounds, from + m, n)
    ensures KeyBytes(s, rounds, from, m + n)[..m] == KeyBytes(s, rounds, from, m)
  {
    hide Key;
  }

  lemma KeyBlock(s: State, rounds: nat, k: nat)
    ensures Block(Ahead(s, k), rounds) == KeyBytes(s, rounds, 64 * k, 64)
  {
    var b := Block(Ahead(s, k), rounds);
    hide Block, Ahead;
    forall j | 0 <= j < 64 ensures b[j] == Key(s, rounds, 64 * k + j) {
      assert (64 * k + j) / 64 == k && (64 * k + j) % 64 == j;
    }
    hide Key;
  }

  /** Whole blocks are keystream bytes. */
  lemma {:induction false} BlocksAreKey(s: State, rounds: nat, k: nat, n: nat)
    ensures Blocks(Ahead(s, k), rounds, n) == KeyBytes(s, rounds, 64 * k, 64 * n)
    decreases n
  {
    hide Block, Ahead, Key, KeyBytes;
    if n == 0 {
      assert KeyBytes(s, rounds, 64 * k, 0) == [];
    } else {
      BlocksAreKey(s, rounds, k, n - 1);
      AheadAhead(s, k, n - 1);
      KeyBlock(s, rounds, k + (n - 1));
      KeyBytesSplit(s, rounds, 64 * k, 64 * (n - 1), 64);
    }
  }

  // ---------------------------------------------------------------- set-up

  /** Word i of a little-endian byte string. */
  function LoadWord(b: seq<byte>, i: nat): Word
    requires 4 * i + 4 <= |b|
  {
    Load(b[4 * i], b[4 * i + 1], b[4 * i + 2], b[4 * i + 3])
  }

  /** The same as a number, for the counter words. */
  function Load32(b: seq<byte>, i: nat): u32
    requires 4 * i + 4 <= |b|
  {
    var a0: nat, a1: nat, a2: nat, a3: nat := b[4 * i], b[4 * i + 1], b[4 * i + 2], b[4 * i + 3];
    a0 + 0x100 * a1 + 0x1_0000 * a2 + 0x100_0000 * a3
  }

  predicate ValidKey(key: seq<byte>) { |key| == 16 || |key| == 32 }

  predicate ValidIvLength(n: nat) { n == 0 || n == 8 || n == 12 || n == 24 }

  /** The constant words, the key words (a short key twice), and zeros. */
  function KeyState(key: seq<byte>): (s: State)
    requires ValidKey(key)
    ensures s.x12 == 0 && s.x14 == 0 && s.x15 == 0
  {
    var o := if |key| == 32 then 4 else 0;
    State(0x61707865, if |key| == 32 then 0x3320646e else 0x3120646e, if |key| == 32 then 0x79622d32 else 0x79622d36, 0x6b206574,
          LoadWord(key, 0), LoadWord(key, 1), LoadWord(key, 2), LoadWord(key, 3),
          LoadWord(key, o), LoadWord(key, o + 1), LoadWord(key, o + 2), LoadWord(key, o + 3), 0, 0, 0, 0)
  }

  /** HChaCha replaces the key words by the first and last row of the permuted state. */
  function HChacha(s: State, rounds: nat): (t: State)
    ensures t.x12 == 0
  {
    var x := DoubleRounds(Words16(s), rounds / 2);
    s.(x04 := x.x00, x05 := x.x01, x06 := x.x02, x07 := x.x03, x08 := x.x12, x09 := x.x13, x10 := x.x14, x11 := x.x15,
       x12 := 0, x13 := 0)
  }

  /** The state at keystream byte 0. */
  function StartState(key: seq<byte>, iv: seq<byte>, rounds: nat): State
    requires ValidKey(key) && ValidIvLength(|iv|)
  {
    var s := KeyState(key);
    if |iv| == 0 then s
    else if |iv| == 8 then s.(x14 := LoadWord(iv, 0), x15 := LoadWord(iv, 1))
    else if |iv| == 12 then s.(x13 := Load32(iv, 0), x14 := LoadWord(iv, 1), x15 := LoadWord(iv, 2))
    else
      var s := s.(x12 := Load32(iv, 0), x13 := Load32(iv, 1), x14 := LoadWord(iv, 2), x15 := LoadWord(iv, 3));
      HChacha(s, rounds).(x14 := LoadWord(iv, 4), x15 := LoadWord(iv, 5))
  }

  /** How far off one step of word 13 is, in bytes. */
  const SEEK_STEP: nat := 0x40_0000_0000

  /** How far word 13 has moved up after this many blocks. */
  function Wraps(blocks: nat): nat { blocks / 0x1_0000_0000 % 0x1_0000_0000 }

  /** The state that a seek sets up. */
  function Sought(s: State, counter: nat): State
    requires counter < TWO64 / 64
  {
    s.(x12 := U32(counter), x13 := Plus(s.x13, counter / 0x1_0000_0000))
  }

  lemma SeekState(start: State, filled: nat, counter: nat)
    requires start.x12 == 0 && counter < TWO64 / 64
    ensures Sought(Ahead(start, filled), counter) == Ahead(start, counter + 0x1_0000_0000 * Wraps(filled))
    ensures Ahead(start, counter + 0x1_0000_0000 * Wraps(filled)) == Ahead(start, counter) <==> Wraps(filled) == 0
  {
    var target := counter + 0x1_0000_0000 * Wraps(filled);
    SeekFacts(start, filled, counter);
    hide Ahead, Plus, U32, Wraps;
  }

  lemma SeekFacts(start: State, filled: nat, counter: nat)
    requires start.x12 == 0 && counter < TWO64 / 64
    ensures var high := counter / 0x1_0000_0000;
            var target := counter + 0x1_0000_0000 * Wraps(filled);
            && Ahead(start, filled) == start.(x12 := U32(filled), x13 := U32(start.x13 + filled / 0x1_0000_0000))
            && Ahead(start, counter) == start.(x12 := U32(counter), x13 := U32(start.x13 + high))
            && Ahead(start, target) == start.(x12 := U32(counter), x13 := U32(start.x13 + (high + Wraps(filled))))
            && Plus(U32(start.x13 + filled / 0x1_0000_0000), high) == U32(start.x13 + (high + Wraps(filled)))
            && (U32(start.x13 + (high + Wraps(filled))) == U32(start.x13 + high) <==> Wraps(filled) == 0)
  {
    hide Ahead, Plus, U32;
    var target := counter + 0x1_0000_0000 * Wraps(filled);
    AheadWords(start, filled);
    AheadWords(start, counter);
    AheadWords(start, target);
    SeekWord(start.x13, filled / 0x1_0000_0000, counter / 0x1_0000_0000);
    TargetWords(counter, Wraps(filled));
  }

  lemma AheadWords(start: State, k: nat)
    requires start.x12 == 0
    ensures Ahead(start, k) == start.(x12 := U32(k), x13 := U32(start.x13 + k / 0x1_0000_0000))
  {
  }

  lemma TargetWords(counter: nat, wraps: nat)
    ensures U32(counter + 0x1_0000_0000 * wraps) == U32(counter)
    ensures (counter + 0x1_0000_0000 * wraps) / 0x1_0000_0000 == counter / 0x1_0000_0000 + wraps
  {
  }

  lemma SeekWord(x: u32, d: nat, c: nat)
    requires c < 0x1_0000_0000
    ensures Plus(U32(x + d), c) == U32(x + (c + d % 0x1_0000_0000))
    ensures U32(x + (c + d % 0x1_0000_0000)) == U32(x + c) <==> d % 0x1_0000_0000 == 0
  {
  }

  class ChachaCipher {
    const rounds: nat
    const cpu: Features
    var key: seq<byte>
    var state: State
    var buffer: seq<byte>
    var position: nat

    /** The state at keystream byte 0, and the number of the first block in the buffer. */
    ghost var start: State
    ghost var base: nat

    /** How many blocks are buffered. */
    function Parallelism(): (n: nat)
      ensures n == 16 || n == 8 || n == 4
    {
      if cpu.avx512 then 16 else if cpu.avx2 then 8 else 4
    }

    ghost predicate Valid()
      reads this
    {
      && rounds % 2 == 0 && ValidKey(key) && start.x12 == 0
      && state == Ahead(start, base + Parallelism())
      && buffer == KeyBytes(start, rounds, 64 * base, 64 * Parallelism())
      && position < |buffer|
    }

    ghost function Position(): nat
      reads this
    {
      64 * base + position
    }

    ghost function Next(n: nat): seq<byte>
      reads this
    {
      KeyBytes(start, rounds, Position(), n)
    }

    constructor (k: seq<byte>, r: nat, features: Features)
      requires ValidKey(k) && (r == 8 || r == 12 || r == 20)
      ensures Valid() && Position() == 0 && start == StartState(k, [], r)
      ensures key == k && rounds == r && cpu == features
    {
      hide Block, Ahead, Key, KeyBytes, Blocks, StartState, KeyState;
      rounds, cpu, key := r, features, k;
      state, buffer, position, start, base := KeyState(k), [], 0, KeyState(k), 0;
      new;
      var ok := SetIv([]);
    }

    /** Fills the buffer with the blocks from block k on. */
    method Refill(ghost k: nat)
      requires rounds % 2 == 0 && ValidKey(key) && start.x12 == 0 && state == Ahead(start, k)
      modifies this`state, this`buffer, this`position, this`base
      ensures Valid() && position == 0 && base == k
    {
      hide Block, Ahead, Key, KeyBytes, Blocks;
      buffer, state := Chacha(state, rounds, Parallelism(), cpu);
      AheadAhead(start, k, Parallelism());
      BlocksAreKey(start, rounds, k, Parallelism());
      position, base := 0, k;
    }

    method SetIv(iv: seq<byte>) returns (ok: bool)
      requires rounds % 2 == 0 && ValidKey(key)
      modifies this`state, this`buffer, this`position, this`start, this`base
      ensures ok == ValidIvLength(|iv|)
      ensures ok ==> Valid() && Position() == 0 && start == StartState(key, iv, rounds)
      ensures !ok ==> unchanged(this)
    {
      hide Block, Ahead, Key, KeyBytes, Blocks, StartState;
      if !ValidIvLength(|iv|) {
        return false;
      }
      LoadIv(iv);
      AheadAhead(state, 0, 0);
      start := state;
      Refill(0);
      ok := true;
    }

    /** Key and nonce words. */
    method LoadIv(iv: seq<byte>)
      requires ValidKey(key) && ValidIvLength(|iv|)
      modifies this`state
      ensures state == StartState(key, iv, rounds) && state.x12 == 0
    {
      hide HChacha, KeyState, LoadWord, Load32;
      state := KeyState(key);
      if |iv| == 0 {
        state := state.(x14 := 0, x15 := 0);
      } else if |iv| == 8 {
        state := state.(x14 := LoadWord(iv, 0), x15 := LoadWord(iv, 1));
      } else if |iv| == 12 {
        state := state.(x13 := Load32(iv, 0), x14 := LoadWord(iv, 1), x15 := LoadWord(iv, 2));
      } else {
        state := state.(x12 := Load32(iv, 0), x13 := Load32(iv, 1), x14 := LoadWord(iv, 2), x15 := LoadWord(iv, 3));
        state := HChacha(state, rounds);
        state := state.(x14 := LoadWord(iv, 4), x15 := LoadWord(iv, 5));
      }
    }

    /** The rest of the buffer is the keystream that comes next. */
    lemma BufferNext(k: nat)
      requires Valid() && position + k <= |buffer|
      ensures buffer[position..position + k] == Next(k)
    {
      hide Block, Ahead, Key, KeyBytes, Blocks;
      var size := 64 * Parallelism();
      KeyBytesSplit(start, rounds, 64 * base, position, size - position);
      KeyBytesSplit(start, rounds, 64 * base + position, k, size - position - k);
      assert buffer[position..position + k] == buffer[position..][..k];
    }

    lemma SomeBuffered()
      requires Valid()
      ensures position < |buffer|
    {
      hide Block, Ahead, Key, KeyBytes, Blocks;
    }

    /** The next k bytes from the buffer, which is filled again once it is used up. */
    method FromBuffer(k: nat) returns (piece: seq<byte>)
      requires Valid() && k <= |buffer| - position
      modifies this`state, this`buffer, this`position, this`base
      ensures Valid() && Position() == old(Position()) + k && piece == old(Next(k))
    {
      hide Block, Ahead, Key, KeyBytes, Blocks;
      BufferNext(k);
      piece := buffer[position..position + k];
      if k < |buffer| - position {
        position := position + k;
      } else {
        Refill(base + Parallelism());
      }
    }

    /** Hands out the next keystream bytes. */
    method GenerateKeystream(length: nat) returns (out: seq<byte>)
      requires Valid()
      modifies this`state, this`buffer, this`position, this`base
      ensures Valid() && Position() == old(Position()) + length
      ensures out == old(Next(length))
    {
      hide Valid, Position, KeyBytes;
      ghost var p := Position();
      out := [];
      SomeBuffered();
      while length - |out| >= |buffer| - position
        invariant Valid() && |out| <= length && position < |buffer|
        invariant Position() == p + |out| && out == KeyBytes(start, rounds, p, |out|)
        decreases length - |out|
      {
        KeyBytesSplit(start, rounds, p, |out|, |buffer| - position);
        var piece := FromBuffer(|buffer| - position);
        out := out + piece;
        SomeBuffered();
      }
      KeyBytesSplit(start, rounds, p, |out|, length - |out|);
      var piece := FromBuffer(length - |out|);
      out := out + piece;
    }

    /** XORs the next keystream bytes onto the input. */
    method CipherBytes(input: seq<byte>) returns (out: seq<byte>)
      requires Valid()
      modifies this`state, this`buffer, this`position, this`base
      ensures Valid() && Position() == old(Position()) + |input|
      ensures out == XorBytes(input, old(Next(|input|)))
    {
      hide Valid, Position, KeyBytes, XorBytes;
      ghost var p := Position();
      var n := 0;
      out := [];
      XorNothing(KeyBytes(start, rounds, p, 0));
      SomeBuffered();
      assert input[..0] == [];
      while |input| - n >= |buffer| - position
        invariant Valid() && n <= |input| && position < |buffer|
        invariant Position() == p + n && out == XorBytes(input[..n], KeyBytes(start, rounds, p, n))
        decreases |input| - n
      {
        var available := |buffer| - position;
        KeyBytesSplit(start, rounds, p, n, available);
        XorPieces(input, n, available, KeyBytes(start, rounds, p, n + available));
        var piece := FromBuffer(available);
        out := out + XorBytes(input[n..n + available], piece);
        n := n + available;
        SomeBuffered();
      }
      var left := |input| - n;
      KeyBytesSplit(start, rounds, p, n, left);
      XorPieces(input, n, left, KeyBytes(start, rounds, p, n + left));
      assert input[..|input|] == input;
      var piece := FromBuffer(left);
      out := out + XorBytes(input[n..n + left], piece);
    }

    /** Go to a byte of the keystream.  Word 13 is added to, not set, so the place is off by 2^38
        bytes for each time that word has moved up since the nonce was set: it is right exactly if
        the buffer has not been filled beyond the first 2^38 bytes. */
    method Seek(offset: u64)
      requires Valid()
      modifies this`state, this`buffer, this`position, this`base
      ensures Valid() && Position() == offset + SEEK_STEP * Wraps(old(base) + Parallelism())
      ensures Ahead(start, base) == Ahead(start, offset / 64) <==> Wraps(old(base) + Parallelism()) == 0
    {
      hide Block, Ahead, Key, KeyBytes, Blocks, Sought, Wraps;
      var counter := offset / 64;
      ghost var filled := base + Parallelism();
      state := Sought(state, counter);
      SeekState(start, filled, counter);
      Refill(counter + 0x1_0000_0000 * Wraps(filled));
      position := offset % 64;
    }
  }

  /** Seeking to 2^38 and back to the start misses the start, for every key, nonce and parallelism. */
  method SeekBackMisses(cipher: ChachaCipher, iv: seq<byte>)
    requires cipher.rounds % 2 == 0 && ValidKey(cipher.key) && ValidIvLength(|iv|)
    modifies cipher
    ensures cipher.Valid() && cipher.start == StartState(cipher.key, iv, cipher.rounds)
    ensures cipher.Position() == SEEK_STEP && Ahead(cipher.start, cipher.base) != Ahead(cipher.start, 0)
  {
    hide Block, Ahead, Key, KeyBytes, Blocks, StartState, Wraps, ChachaCipher.Valid;
    var ok := cipher.SetIv(iv);
    NotFilled(cipher);
    cipher.Seek(SEEK_STEP);
    FilledOnce(cipher);
    cipher.Seek(0);
  }

  lemma NotFilled(c: ChachaCipher)
    requires c.Valid() && c.Position() == 0
    ensures c.base == 0 && Wraps(c.base + c.Parallelism()) == 0
  {
    hide Block, Ahead, Key, KeyBytes, Blocks;
  }

  lemma FilledOnce(c: ChachaCipher)
    requires c.Valid() && c.Position() == SEEK_STEP
    ensures Wraps(c.base + c.Parallelism()) == 1
  {
    hide Block, Ahead, Key, KeyBytes, Blocks;
  }
}
