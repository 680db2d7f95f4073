/** Bytes as eight bits, and words of 32 bits in little-endian order. */
module OctetStrings {
  import opened Words

  function Nibble(h: nat): bv8 {
    if h == 0 then 0 else if h == 1 then 1 else if h == 2 then 2 else if h == 3 then 3
    else if h == 4 then 4 else if h == 5 then 5 else if h == 6 then 6 else if h == 7 then 7
    else if h == 8 then 8 else if h == 9 then 9 else if h == 10 then 10 else if h == 11 then 11
    else if h == 12 then 12 else if h == 13 then 13 else if h == 14 then 14 else 15
  }

  function Join(h: bv8, l: bv8): bv8 { (h << 4) | l }

  /** A byte as eight bits. */
  function Octet(b: byte): bv8 { Join(Nibble(b / 16), Nibble(b % 16)) }

  function Octets(s: seq<byte>): (r: seq<bv8>)
    ensures |r| == |s|
  {
    seq(|s|, i requires 0 <= i < |s| => Octet(s[i]))
  }

  lemma NibbleRange(h: nat)
    ensures Nibble(h) < 16
  {
  }

  lemma NibbleDecides(g: nat, h: nat)
    requires g < 16 && h < 16 && Nibble(g) == Nibble(h)
    ensures g == h
  {
  }

  lemma JoinDecides(g: bv8, h: bv8, k: bv8, l: bv8)
    requires g < 16 && h < 16 && k < 16 && l < 16 && Join(g, h) == Join(k, l)
    ensures g == k && h == l
  {
  }

  /** The bits determine the byte. */
  lemma OctetDecides(a: byte, b: byte)
    requires Octet(a) == Octet(b)
    ensures a == b
  {
    hide Nibble, Join;
    NibbleRange(a / 16);
    NibbleRange(a % 16);
    NibbleRange(b / 16);
    NibbleRange(b % 16);
    JoinDecides(Nibble(a / 16), Nibble(a % 16), Nibble(b / 16), Nibble(b % 16));
    NibbleDecides(a / 16, b / 16);
    NibbleDecides(a % 16, b % 16);
  }

  /** The other way round. */
  function Number(w: bv8): byte { w as int }

  function Load(a: byte, b: byte, c: byte, d: byte): bv32 {
    (Octet(a) as bv32) | ((Octet(b) as bv32) << 8) | ((Octet(c) as bv32) << 16) | ((Octet(d) as bv32) << 24)
  }

  function Low(w: bv32): bv8 { (w & 0xFF) as bv8 }

  function Store(w: bv32): (b: seq<byte>)
    ensures |b| == 4
  {
    [Number(Low(w)), Number(Low(w >> 8)), Number(Low(w >> 16)), Number(Low(w >> 24))]
  }
}
