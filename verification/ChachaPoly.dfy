/** ChaCha20-Poly1305: encryption and authentication of a message in pieces, the filter that cuts
    messages into pieces, and the round trip. */
module ChachaPoly {
  import opened Words
  import opened Wrappers
  import opened ChachaBlocks
  import opened ChachaStream
  import opened Poly1305Mac
  import opened Poly1305Stream
  import opened ChunkBuffers
  import opened SsChunks

  // ---------------------------------------------------------------- the construction

  predicate ValidNonceLength(n: nat) { n == 8 || n == 12 || n == 24 }

  /** The form of section 2.8 of RFC 8439, used for 12 and 24 byte nonces. */
  predicate CfrgVersion(nonceLen: nat) { nonceLen == 12 || nonceLen == 24 }

  function PadTo16(n: nat): (z: seq<byte>)
    ensures (n + |z|) % 16 == 0 && |z| < 16 && forall i :: 0 <= i < |z| ==> z[i] == 0
  {
    if n % 16 == 0 then [] else seq(16 - n % 16, _ => 0)
  }

  function Length8(n: nat): (b: seq<byte>)
    ensures |b| == 8
  {
    LeBytes(n, 8)
  }

  /** What is authenticated before the ciphertext. */
  function MacStart(ad: seq<byte>, nonceLen: nat): seq<byte> {
    ad + if CfrgVersion(nonceLen) then PadTo16(|ad|) else Length8(|ad|)
  }

  /** What is authenticated after it. */
  function MacEnd(ad: seq<byte>, nonceLen: nat, n: nat): seq<byte> {
    (if CfrgVersion(nonceLen) then PadTo16(n) + Length8(|ad|) else []) + Length8(n)
  }

  function MacData(ad: seq<byte>, nonceLen: nat, ciphertext: seq<byte>): seq<byte> {
    MacStart(ad, nonceLen) + ciphertext + MacEnd(ad, nonceLen, |ciphertext|)
  }

  /** The one-time key: the front of keystream block 0. */
  function MacKey(s: State): (k: seq<byte>)
    ensures |k| == 32
  {
    KeyBytes(s, 20, 0, 64)[..32]
  }

  function Tag(s: State, ad: seq<byte>, nonceLen: nat, ciphertext: seq<byte>): (t: seq<byte>)
    ensures |t| == 16
  {
    StreamTag(MacKey(s), MacData(ad, nonceLen, ciphertext))
  }

  /** Encryption and decryption are the same: the keystream from block 1 on. */
  function Crypt(s: State, text: seq<byte>): (r: seq<byte>)
    ensures |r| == |text|
  {
    XorBytes(text, KeyBytes(s, 20, 64, |text|))
  }

  function Seal(key: seq<byte>, ad: seq<byte>, nonce: seq<byte>, plain: seq<byte>): seq<byte>
    requires |key| == 32 && ValidNonceLength(|nonce|)
  {
    var s := StartState(key, nonce, 20);
    var c := Crypt(s, plain);
    c + Tag(s, ad, |nonce|, c)
  }

  function Open(key: seq<byte>, ad: seq<byte>, nonce: seq<byte>, sealed: seq<byte>): Option<seq<byte>>
    requires |key| == 32 && ValidNonceLength(|nonce|)
  {
    if |sealed| < 16 then None
    else
      var s := StartState(key, nonce, 20);
      var c, t := sealed[..|sealed| - 16], sealed[|sealed| - 16..];
      if Tag(s, ad, |nonce|, c) == t then Some(Crypt(s, c)) else None
  }

  /** What is authenticated, as section 2.8 of RFC 8439 lays it out: additional data and ciphertext, each filled up
      with fewer than 16 zeros, then the two lengths; for a nonce of eight bytes each length stands right behind
      its data. */
  lemma MacLayout(ad: seq<byte>, nonceLen: nat, c: seq<byte>) returns (p: seq<byte>, q: seq<byte>, m: seq<byte>, n: seq<byte>)
    ensures |m| == |n| == 8 && LeValue(m) == |ad| % TWO64 && LeValue(n) == |c| % TWO64
    ensures |p| < 16 && |q| < 16 && (forall i :: 0 <= i < |p| ==> p[i] == 0) && (forall i :: 0 <= i < |q| ==> q[i] == 0)
    ensures if nonceLen == 12 || nonceLen == 24
            then (|ad| + |p|) % 16 == 0 && (|c| + |q|) % 16 == 0 && MacData(ad, nonceLen, c) == ad + p + c + q + m + n
            else MacData(ad, nonceLen, c) == ad + m + c + n
  {
    hide LeValue, LeBytes;
    p, q, m, n := PadTo16(|ad|), PadTo16(|c|), Length8(|ad|), Length8(|c|);
    LeValueOfBytes(|ad|, 8);
    LeValueOfBytes(|c|, 8);
    EightBytes();
  }

  lemma EightBytes()
    ensures Pow256(8) == TWO64
  {
    assert Pow256(4) == 0x1_0000_0000;
  }

  /** A sealed message, byte by byte: the plaintext with the blocks from number 1 on, then the tag under the front
      of block number 0. */
  lemma SealLayout(key: seq<byte>, ad: seq<byte>, nonce: seq<byte>, plain: seq<byte>)
    requires |key| == 32 && ValidNonceLength(|nonce|)
    ensures var s, sealed := StartState(key, nonce, 20), Seal(key, ad, nonce, plain);
            && |sealed| == |plain| + 16
            && (forall j: nat :: j < |plain| ==> sealed[j] == XorByte(plain[j], Block(Ahead(s, 1 + j / 64), 20)[j % 64]))
            && sealed[|plain|..] == StreamTag(Block(s, 20)[..32], MacData(ad, |nonce|, sealed[..|plain|]))
  {
    hide StartState, Block, StreamTag, XorByte, MacData;
    var s := StartState(key, nonce, 20);
    KeyBlock(s, 20, 0);
    AheadAhead(s, 0, 0);
    forall j: nat | j < |plain| ensures Crypt(s, plain)[j] == XorByte(plain[j], Block(Ahead(s, 1 + j / 64), 20)[j % 64]) {
      assert (64 + j) / 64 == 1 + j / 64 && (64 + j) % 64 == j % 64;
    }
    hide Crypt, KeyBytes, Ahead;
  }

  /** Decryption gives back the message and accepts the tag. */
  lemma OpenSeal(key: seq<byte>, ad: seq<byte>, nonce: seq<byte>, plain: seq<byte>)
    requires |key| == 32 && ValidNonceLength(|nonce|)
    ensures Open(key, ad, nonce, Seal(key, ad, nonce, plain)) == Some(plain)
  {
    hide StartState, Tag, KeyBytes, XorBytes;
    var s := StartState(key, nonce, 20);
    var c := Crypt(s, plain);
    XorBytesCancel(plain, KeyBytes(s, 20, 64, |plain|));
    var sealed := Seal(key, ad, nonce, plain);
    assert sealed[..|sealed| - 16] == c && sealed[|sealed| - 16..] == Tag(s, ad, |nonce|, c);
  }

  /** Only what Seal produces is accepted. */
  lemma OpenOnlySealed(key: seq<byte>, ad: seq<byte>, nonce: seq<byte>, sealed: seq<byte>)
    requires |key| == 32 && ValidNonceLength(|nonce|)
    ensures Open(key, ad, nonce, sealed).Some? ==> Seal(key, ad, nonce, Open(key, ad, nonce, sealed).value) == sealed
  {
    hide StartState, Tag, KeyBytes, XorBytes;
    if Open(key, ad, nonce, sealed).Some? {
      var s := StartState(key, nonce, 20);
      var c := sealed[..|sealed| - 16];
      XorBytesCancel(c, KeyBytes(s, 20, 64, |c|));
      assert sealed == c + sealed[|sealed| - 16..];
    }
  }

  /** The keyed mode as the ciphers of the chunk format see it; they only use valid nonces. */
  function ModeOf(key: seq<byte>, nonceSize: nat): Aead
    requires |key| == 32
  {
    Aead((n: seq<byte>, p: seq<byte>) => if ValidNonceLength(|n|) then Seal(key, [], n, p) else p + seq(16, _ => 0),
         (n: seq<byte>, c: seq<byte>) =>
           if ValidNonceLength(|n|) then Open(key, [], n, c)
           else if |c| < 16 then None else Some(c[..|c| - 16]),
         nonceSize)
  }

  /** ChaCha20-Poly1305 is an AEAD in the sense the chunk format needs. */
  lemma ModeIsLawful(key: seq<byte>, nonceSize: nat)
    requires |key| == 32
    ensures Lawful(ModeOf(key, nonceSize))
  {
    hide Seal, Open;
    var a := ModeOf(key, nonceSize);
    forall n, p ensures |a.seal(n, p)| == |p| + TAG_SIZE {
      if ValidNonceLength(|n|) {
        SealLength(key, [], n, p);
      }
    }
    forall n, p ensures a.open(n, a.seal(n, p)) == Some(p) {
      if ValidNonceLength(|n|) {
        OpenSeal(key, [], n, p);
      } else {
        assert (p + seq<byte>(16, _ => 0))[..|p|] == p;
      }
    }
    forall n, c ensures a.open(n, c).Some? ==> |c| == |a.open(n, c).value| + TAG_SIZE {
      if ValidNonceLength(|n|) {
        OpenLength(key, [], n, c);
      }
    }
  }

  lemma SealLength(key: seq<byte>, ad: seq<byte>, nonce: seq<byte>, plain: seq<byte>)
    requires |key| == 32 && ValidNonceLength(|nonce|)
    ensures |Seal(key, ad, nonce, plain)| == |plain| + 16
  {
    hide StartState, Tag, Crypt;
  }

  lemma OpenLength(key: seq<byte>, ad: seq<byte>, nonce: seq<byte>, sealed: seq<byte>)
    requires |key| == 32 && ValidNonceLength(|nonce|)
    ensures Open(key, ad, nonce, sealed).Some? ==> |sealed| == |Open(key, ad, nonce, sealed).value| + 16
  {
    hide StartState, Tag, Crypt;
  }

  // ---------------------------------------------------------------- messages in pieces

  lemma CryptMore(s: State, a: seq<byte>, b: seq<byte>)
    ensures Crypt(s, a + b) == Crypt(s, a) + XorBytes(b, KeyBytes(s, 20, 64 + |a|, |b|))
  {
    hide KeyBytes, XorBytes;
    KeyBytesSplit(s, 20, 64, |a|, |b|);
    XorBytesConcat(a, b, KeyBytes(s, 20, 64, |a|), KeyBytes(s, 20, 64 + |a|, |b|));
  }

  lemma CryptNothing(s: State)
    ensures Crypt(s, []) == []
  {
  }

  class ChachaPolyMode {
    const chacha: ChachaCipher
    const mac: Poly1305
    var ad: seq<byte>
    var ctextLen: nat
    var nonceLen: nat

    /** The ciphertext of the current message so far. */
    ghost var text: seq<byte>
    ghost var Repr: set<object>

    ghost predicate Valid()
      reads this, Repr
    {
      && {this, chacha, mac} <= Repr && mac.Repr <= Repr
      && this !in mac.Repr && chacha !in mac.Repr
      && mac.Valid()
      && chacha.rounds == 20 && |chacha.key| == 32
    }

    /** In the middle of a message. */
    ghost predicate Running()
      reads this, Repr
    {
      && Valid() && chacha.Valid() && mac.Keyed()
      && mac.key == MacKey(chacha.start) && mac.message == MacStart(ad, nonceLen) + text
      && chacha.Position() == 64 + |text| && ctextLen == |text| % TWO64
    }

    constructor (key: seq<byte>, features: Features)
      requires |key| == 32
      ensures Valid() && fresh(Repr) && chacha.key == key && ad == [] && nonceLen == 0
    {
      hide Poly1305.Valid, ChachaCipher.Valid, StartState;
      chacha := new ChachaCipher(key, 20, features);
      mac := new Poly1305();
      ad, ctextLen, nonceLen, text := [], 0, 0, [];
      new;
      Repr := {this, chacha, mac} + mac.Repr;
    }

    /** Additional data can be set between messages only. */
    method SetAssociatedData(data: seq<byte>) returns (ok: bool)
      requires Valid()
      modifies this`ad
      ensures Valid() && ok == (ctextLen == 0 && nonceLen == 0) && ad == if ok then data else old(ad)
    {
      hide Poly1305.Valid;
      ok := ctextLen == 0 && nonceLen == 0;
      if ok {
        ad := data;
      }
    }

    method Start(nonce: seq<byte>) returns (ok: bool)
      requires Valid()
      modifies Repr
      ensures Valid() && fresh(Repr - old(Repr)) && ok == ValidNonceLength(|nonce|)
      ensures ad == old(ad) && chacha.key == old(chacha.key)
      ensures ok ==> Running() && text == [] && nonceLen == |nonce| && chacha.start == StartState(chacha.key, nonce, 20)
    {
      hide Poly1305.Valid, ChachaCipher.Valid, StartState, KeyBytes, LeBytes;
      if !ValidNonceLength(|nonce|) {
        return false;
      }
      ctextLen, nonceLen, text := 0, |nonce|, [];
      var accepted := chacha.SetIv(nonce);
      var firstBlock := chacha.GenerateKeystream(64);
      StartMac(firstBlock[..32]);
      ok := true;
    }

    /** The one-time key and everything that comes before the ciphertext. */
    method StartMac(key: seq<byte>)
      requires Valid() && |key| == 32
      modifies mac.Repr, this`Repr
      ensures Valid() && fresh(Repr - old(Repr)) && mac.Keyed()
      ensures mac.key == key && mac.message == MacStart(ad, nonceLen)
    {
      hide Poly1305.Valid, LeBytes;
      mac.SetKey(key);
      Repr := Repr + mac.Repr;
      mac.Update(ad);
      if CfrgVersion(nonceLen) {
        if |ad| % 16 != 0 {
          mac.Update(PadTo16(|ad|));
        }
      } else {
        mac.Update(Length8(|ad|));
      }
    }

    /** Encrypts a piece and authenticates the result. */
    method EncryptPiece(buf: seq<byte>) returns (out: seq<byte>)
      requires Running()
      modifies Repr
      ensures Running() && Repr == old(Repr)
      ensures ad == old(ad) && nonceLen == old(nonceLen) && chacha.start == old(chacha.start) && chacha.key == old(chacha.key)
      ensures out == XorBytes(buf, KeyBytes(chacha.start, 20, 64 + old(|text|), |buf|)) && text == old(text) + out
    {
      hide Poly1305.Valid, ChachaCipher.Valid, KeyBytes, XorBytes, MacStart, MacKey;
      out := chacha.CipherBytes(buf);
      mac.Update(out);
      AddLengths(|text|, |buf|);
      ctextLen := (ctextLen + |buf|) % TWO64;
      text := text + out;
    }

    /** Authenticates a piece of ciphertext, then decrypts it. */
    method DecryptPiece(buf: seq<byte>) returns (out: seq<byte>)
      requires Running()
      modifies Repr
      ensures Running() && Repr == old(Repr)
      ensures ad == old(ad) && nonceLen == old(nonceLen) && chacha.start == old(chacha.start) && chacha.key == old(chacha.key)
      ensures out == XorBytes(buf, KeyBytes(chacha.start, 20, 64 + old(|text|), |buf|)) && text == old(text) + buf
    {
      hide Poly1305.Valid, ChachaCipher.Valid, KeyBytes, XorBytes, MacStart, MacKey;
      mac.Update(buf);
      out := chacha.CipherBytes(buf);
      AddLengths(|text|, |buf|);
      ctextLen := (ctextLen + |buf|) % TWO64;
      text := text + buf;
    }

    /** Padding and lengths; the tag of everything. */
    method FinishMac() returns (tag: seq<byte>)
      requires Running()
      modifies Repr
      ensures Valid() && fresh(Repr - old(Repr)) && chacha.key == old(chacha.key) && chacha.start == old(chacha.start)
      ensures ad == old(ad) && ctextLen == 0 && nonceLen == 0
      ensures tag == Tag(chacha.start, ad, old(nonceLen), old(text))
    {
      hide Poly1305.Valid, ChachaCipher.Valid, KeyBytes, MacStart, MacKey, LeBytes, StreamTag;
      PadWraps(|text|);
      if CfrgVersion(nonceLen) {
        if ctextLen % 16 != 0 {
          mac.Update(PadTo16(ctextLen));
        }
        mac.Update(Length8(|ad|));
      }
      mac.Update(Length8(ctextLen));
      assert mac.message == MacData(ad, nonceLen, text);
      tag := mac.Final();
      Repr := Repr + mac.Repr;
      ctextLen, nonceLen := 0, 0;
    }

    /** The last piece and the tag. */
    method FinishEncrypt(buf: seq<byte>) returns (out: seq<byte>)
      requires Running()
      modifies Repr
      ensures Valid() && fresh(Repr - old(Repr)) && ad == old(ad) && nonceLen == 0 && chacha.key == old(chacha.key)
      ensures var more := XorBytes(buf, KeyBytes(old(chacha.start), 20, 64 + old(|text|), |buf|));
              out == more + Tag(old(chacha.start), ad, old(nonceLen), old(text) + more)
    {
      hide Valid, Running, KeyBytes, XorBytes, Tag;
      RunningValid();
      out := EncryptPiece(buf);
      RunningValid();
      var tag := FinishMac();
      out := out + tag;
    }

    /** The last piece with the tag behind it. */
    method FinishDecrypt(buf: seq<byte>) returns (out: Option<seq<byte>>)
      requires Running()
      modifies Repr
      ensures Valid() && fresh(Repr - old(Repr)) && ad == old(ad) && chacha.key == old(chacha.key)
      ensures |buf| < 16 ==> out == None
      ensures |buf| >= 16 ==>
        var c, t := buf[..|buf| - 16], buf[|buf| - 16..];
        out == if Tag(old(chacha.start), ad, old(nonceLen), old(text) + c) == t
               then Some(XorBytes(c, KeyBytes(old(chacha.start), 20, 64 + old(|text|), |c|))) else None
    {
      hide Valid, Running, KeyBytes, XorBytes, Tag;
      RunningValid();
      if |buf| < 16 {
        return None;
      }
      var remaining := |buf| - 16;
      var plain := [];
      NoXor(chacha.start, 64 + |text|);
      if remaining > 0 {
        plain := DecryptPiece(buf[..remaining]);
        RunningValid();
      } else {
        assert buf[..remaining] == [] && text + [] == text;
      }
      var tag := FinishMac();
      out := if tag == buf[remaining..] then Some(plain) else None;
    }

    lemma RunningValid()
      requires Running()
      ensures Valid()
    {
    }
  }

  lemma NoXor(s: State, from: nat)
    ensures XorBytes([], KeyBytes(s, 20, from, 0)) == []
  {
  }

  // ---------------------------------------------------------------- any pieces

  /** A message encrypted in any pieces is the sealed message. */
  method SealInPieces(mode: ChachaPolyMode, nonce: seq<byte>, pieces: seq<seq<byte>>, last: seq<byte>) returns (out: seq<byte>)
    requires mode.Valid() && ValidNonceLength(|nonce|)
    modifies mode.Repr
    ensures mode.Valid() && fresh(mode.Repr - old(mode.Repr)) && mode.ad == old(mode.ad) && mode.chacha.key == old(mode.chacha.key)
    ensures |mode.chacha.key| == 32 && out == Seal(mode.chacha.key, mode.ad, nonce, Flatten(pieces) + last)
  {
    hide ChachaPolyMode.Valid, ChachaPolyMode.Running, KeyBytes, XorBytes, Tag, StartState, Crypt, Flatten;
    ghost var s := StartState(KeyOf(mode), nonce, 20);
    var ok := mode.Start(nonce);
    out := [];
    CryptNothing(s);
    FlattenEmpty();
    for i := 0 to |pieces|
      invariant mode.Running() && fresh(mode.Repr - old(mode.Repr))
      invariant mode.ad == old(mode.ad) && mode.nonceLen == |nonce| && mode.chacha.start == s && mode.chacha.key == old(mode.chacha.key)
      invariant mode.text == out == Crypt(s, Flatten(pieces[..i]))
    {
      var piece := mode.EncryptPiece(pieces[i]);
      CryptMore(s, Flatten(pieces[..i]), pieces[i]);
      FlattenAppend(pieces[..i], pieces[i]);
      assert pieces[..i + 1] == pieces[..i] + [pieces[i]];
      out := out + piece;
    }
    assert pieces[..|pieces|] == pieces;
    CryptMore(s, Flatten(pieces), last);
    var end := mode.FinishEncrypt(last);
    out := out + end;
  }

  /** Sealed text decrypted in any pieces, the tag being in the last one, is the opened message. */
  method OpenInPieces(mode: ChachaPolyMode, nonce: seq<byte>, pieces: seq<seq<byte>>, last: seq<byte>) returns (out: Option<seq<byte>>)
    requires mode.Valid() && ValidNonceLength(|nonce|) && |last| >= 16
    modifies mode.Repr
    ensures mode.Valid() && fresh(mode.Repr - old(mode.Repr)) && mode.ad == old(mode.ad) && mode.chacha.key == old(mode.chacha.key)
    ensures |mode.chacha.key| == 32 && out == Open(mode.chacha.key, mode.ad, nonce, Flatten(pieces) + last)
  {
    hide ChachaPolyMode.Valid, ChachaPolyMode.Running, KeyBytes, XorBytes, Tag, StartState, Crypt, Flatten;
    ghost var s := StartState(KeyOf(mode), nonce, 20);
    var ok := mode.Start(nonce);
    var early := [];
    CryptNothing(s);
    FlattenEmpty();
    for i := 0 to |pieces|
      invariant mode.Running() && fresh(mode.Repr - old(mode.Repr))
      invariant mode.ad == old(mode.ad) && mode.nonceLen == |nonce| && mode.chacha.start == s && mode.chacha.key == old(mode.chacha.key)
      invariant mode.text == Flatten(pieces[..i]) && early == Crypt(s, Flatten(pieces[..i]))
    {
      var piece := mode.DecryptPiece(pieces[i]);
      CryptMore(s, Flatten(pieces[..i]), pieces[i]);
      FlattenAppend(pieces[..i], pieces[i]);
      assert pieces[..i + 1] == pieces[..i] + [pieces[i]];
      early := early + piece;
    }
    assert pieces[..|pieces|] == pieces;
    var end := mode.FinishDecrypt(last);
    LastPiece(s, Flatten(pieces) + last, |Flatten(pieces)|);
    assert (Flatten(pieces) + last)[..|Flatten(pieces)|] == Flatten(pieces) && (Flatten(pieces) + last)[|Flatten(pieces)|..] == last;
    out := if end.Some? then Some(early + end.value) else None;
  }

  // ---------------------------------------------------------------- the filter

  const IDEAL_GRANULARITY: nat := 128

  /** Cuts a message into pieces of 128 bytes and a rest, and seals it: the same as in one piece. */
  method SealMessage(mode: ChachaPolyMode, nonce: seq<byte>, input: seq<byte>) returns (out: seq<byte>)
    requires mode.Valid() && ValidNonceLength(|nonce|)
    modifies mode.Repr
    ensures mode.Valid() && fresh(mode.Repr - old(mode.Repr)) && mode.ad == old(mode.ad) && mode.chacha.key == old(mode.chacha.key)
    ensures |mode.chacha.key| == 32 && out == Seal(mode.chacha.key, mode.ad, nonce, input)
  {
    hide ChachaPolyMode.Valid, ChachaPolyMode.Running, KeyBytes, XorBytes, Tag, StartState, Crypt;
    ghost var s := StartState(KeyOf(mode), nonce, 20);
    var ok := mode.Start(nonce);
    out := [];
    var n := 0;
    CryptNothing(s);
    while |input| - n >= IDEAL_GRANULARITY
      invariant n <= |input| && mode.Running() && fresh(mode.Repr - old(mode.Repr))
      invariant mode.ad == old(mode.ad) && mode.nonceLen == |nonce| && mode.chacha.start == s && mode.chacha.key == old(mode.chacha.key)
      invariant mode.text == out == Crypt(s, input[..n])
    {
      var piece := mode.EncryptPiece(input[n..n + IDEAL_GRANULARITY]);
      CryptMore(s, input[..n], input[n..n + IDEAL_GRANULARITY]);
      assert input[..n + IDEAL_GRANULARITY] == input[..n] + input[n..n + IDEAL_GRANULARITY];
      out := out + piece;
      n := n + IDEAL_GRANULARITY;
    }
    CryptMore(s, input[..n], input[n..]);
    assert input == input[..n] + input[n..];
    var last := mode.FinishEncrypt(input[n..]);
    out := out + last;
  }

  ghost function KeyOf(mode: ChachaPolyMode): (k: seq<byte>)
    requires mode.Valid()
    reads mode, mode.Repr
    ensures |k| == 32 && k == mode.chacha.key
  {
    mode.chacha.key
  }

  /** Opens a sealed message in pieces.  The plaintext of the pieces comes out before the tag is
      known to be right: `early` is what has been handed out when the check is made. */
  method OpenMessage(mode: ChachaPolyMode, nonce: seq<byte>, input: seq<byte>)
    returns (early: seq<byte>, out: Option<seq<byte>>)
    requires mode.Valid() && ValidNonceLength(|nonce|)
    modifies mode.Repr
    ensures mode.Valid() && fresh(mode.Repr - old(mode.Repr)) && mode.ad == old(mode.ad) && mode.chacha.key == old(mode.chacha.key)
    ensures |mode.chacha.key| == 32 && out == Open(mode.chacha.key, mode.ad, nonce, input)
    ensures out.Some? ==> early <= out.value
  {
    hide ChachaPolyMode.Valid, ChachaPolyMode.Running, KeyBytes, XorBytes, Tag, StartState, Crypt;
    ghost var s := StartState(KeyOf(mode), nonce, 20);
    var ok := mode.Start(nonce);
    early := [];
    var n := 0;
    CryptNothing(s);
    while |input| - n >= IDEAL_GRANULARITY + 16
      invariant n <= |input| && (n > 0 ==> |input| - n >= 16) && mode.Running() && fresh(mode.Repr - old(mode.Repr))
      invariant mode.ad == old(mode.ad) && mode.nonceLen == |nonce| && mode.chacha.start == s && mode.chacha.key == old(mode.chacha.key)
      invariant mode.text == input[..n] && early == Crypt(s, input[..n])
    {
      var piece := mode.DecryptPiece(input[n..n + IDEAL_GRANULARITY]);
      CryptMore(s, input[..n], input[n..n + IDEAL_GRANULARITY]);
      assert input[..n + IDEAL_GRANULARITY] == input[..n] + input[n..n + IDEAL_GRANULARITY];
      early := early + piece;
      n := n + IDEAL_GRANULARITY;
    }
    var rest := input[n..];
    var last := mode.FinishDecrypt(rest);
    if |input| >= 16 {
      LastPiece(s, input, n);
    }
    out := if last.Some? then Some(early + last.value) else None;
  }

  lemma LastPiece(s: State, input: seq<byte>, n: nat)
    requires n + 16 <= |input|
    ensures var rest := input[n..];
            var c := rest[..|rest| - 16];
            && input[..|input| - 16] == input[..n] + c && input[|input| - 16..] == rest[|rest| - 16..]
            && Crypt(s, input[..|input| - 16]) == Crypt(s, input[..n]) + XorBytes(c, KeyBytes(s, 20, 64 + n, |c|))
  {
    hide KeyBytes, XorBytes, Crypt;
    var rest := input[n..];
    assert input[..|input| - 16] == input[..n] + rest[..|rest| - 16];
    CryptMore(s, input[..n], rest[..|rest| - 16]);
  }

  lemma AddLengths(a: nat, b: nat)
    ensures (a % TWO64 + b) % TWO64 == (a + b) % TWO64
  {
  }

  /** A wrapped length pads and encodes like the length itself. */
  lemma PadWraps(n: nat)
    ensures PadTo16(n % TWO64) == PadTo16(n) && Length8(n % TWO64) == Length8(n)
    ensures n % TWO64 % 16 == n % 16
  {
    assert n % TWO64 % 16 == n % 16;
    LengthWraps(n);
  }

  lemma LengthWraps(n: nat)
    ensures LeBytes(n % TWO64, 8) == LeBytes(n, 8)
  {
    Pow256Sixteen();
    hide LeBytes, LeValue, Pow256;
    LeValueOfBytes(n, 8);
    LeValueOfBytes(n % TWO64, 8);
    LeBytesOfValue(LeBytes(n, 8));
    LeBytesOfValue(LeBytes(n % TWO64, 8));
    assert n % TWO64 % TWO64 == n % TWO64;
  }
}
