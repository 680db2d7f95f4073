/** Two states of FIPS 197 in eight words: every step of the bitsliced AES does to both what the standard
    does to one. */
module AesLanes {
  import opened AesCircuits
  import S = AesSlices
  import F = Fips197

  type Words = S.Words

  /** Where byte i of block number b is found in the slices. */
  function Place(b: bool, i: nat): bv5
    requires i < 16
  {
    var m: bv5 :=
      if i == 0 then 31 else if i == 1 then 23 else if i == 2 then 15 else if i == 3 then 7
      else if i == 4 then 30 else if i == 5 then 22 else if i == 6 then 14 else if i == 7 then 6
      else if i == 8 then 29 else if i == 9 then 21 else if i == 10 then 13 else if i == 11 then 5
      else if i == 12 then 28 else if i == 13 then 20 else if i == 14 then 12 else 4;
    if b then m - 4 else m
  }

  function Cell(u: Words, m: bv5): F.Octet { Map(At(m), u) }

  /** The state of one of the two blocks. */
  function Lane(u: Words, b: bool): F.State { seq(16, i requires 0 <= i < 16 => Cell(u, Place(b, i))) }

  lemma CellValue(u: Words, m: bv5)
    ensures Cell(u, m)
         == Slices(Bit(u.b0, m), Bit(u.b1, m), Bit(u.b2, m), Bit(u.b3, m), Bit(u.b4, m), Bit(u.b5, m), Bit(u.b6, m), Bit(u.b7, m))
  {
    hide Bit;
  }

  // ---------------------------------------------------------------- bytes

  lemma SboxLane(u: Words, b: bool)
    ensures Lane(Sbox(WORDS, u), b) == F.SubBytes(Lane(u, b))
  {
    hide Sbox, Map, At, Homomorphism, Place;
    forall i: nat | i < 16 ensures Cell(Sbox(WORDS, u), Place(b, i)) == Sbox(BITS, Cell(u, Place(b, i))) {
      AtIsHomomorphism(Place(b, i));
      SboxMap(WORDS, BITS, At(Place(b, i)), u);
    }
    hide Cell;
  }

  lemma InvSboxLane(u: Words, b: bool)
    ensures Lane(InvSbox(WORDS, u), b) == F.InvSubBytes(Lane(u, b))
  {
    hide InvSbox, Map, At, Homomorphism, Place;
    forall i: nat | i < 16 ensures Cell(InvSbox(WORDS, u), Place(b, i)) == InvSbox(BITS, Cell(u, Place(b, i))) {
      AtIsHomomorphism(Place(b, i));
      InvSboxMap(WORDS, BITS, At(Place(b, i)), u);
    }
    hide Cell;
  }

  lemma AddMap<T(!new), U(!new)>(g: Gates<T>, g': Gates<U>, h: T -> U, u: Slices<T>, v: Slices<T>)
    requires Homomorphism(g, g', h)
    ensures Map(h, Add(g, u, v)) == Add(g', Map(h, u), Map(h, v))
  {
  }

  lemma PlusIsAdd(u: Words, v: Words)
    ensures S.Plus(u, v) == Add(WORDS, u, v)
  {
    hide S.Xor;
    S.XorName(u.b0, v.b0);
    S.XorName(u.b1, v.b1);
    S.XorName(u.b2, v.b2);
    S.XorName(u.b3, v.b3);
    S.XorName(u.b4, v.b4);
    S.XorName(u.b5, v.b5);
    S.XorName(u.b6, v.b6);
    S.XorName(u.b7, v.b7);
  }

  lemma PlusCell(u: Words, v: Words, m: bv5)
    ensures Cell(S.Plus(u, v), m) == F.Sum(Cell(u, m), Cell(v, m))
  {
    hide S.Plus, Add, Homomorphism, At, Map;
    PlusIsAdd(u, v);
    AtIsHomomorphism(m);
    AddMap(WORDS, BITS, At(m), u, v);
  }

  lemma PlusLane(u: Words, v: Words, b: bool)
    ensures Lane(S.Plus(u, v), b) == F.AddRoundKey(Lane(u, b), Lane(v, b))
  {
    hide Place, Cell, S.Plus, F.Sum;
    forall i: nat | i < 16 ensures Cell(S.Plus(u, v), Place(b, i)) == F.Sum(Cell(u, Place(b, i)), Cell(v, Place(b, i))) {
      PlusCell(u, v, Place(b, i));
    }
  }

  // ---------------------------------------------------------------- rows

  lemma ShiftCell(u: Words, m: bv5)
    ensures Cell(S.ShiftRows(u), m) == Cell(u, S.Source(m))
  {
    hide Bit, S.Shift, Cell, S.Source;
    CellValue(u, S.Source(m));
    CellValue(S.ShiftRows(u), m);
    S.ShiftBit(u.b0, m);
    S.ShiftBit(u.b1, m);
    S.ShiftBit(u.b2, m);
    S.ShiftBit(u.b3, m);
    S.ShiftBit(u.b4, m);
    S.ShiftBit(u.b5, m);
    S.ShiftBit(u.b6, m);
    S.ShiftBit(u.b7, m);
  }

  lemma AcrossTable(i: nat)
    requires i < 16
    ensures F.Across(i)
         == if i == 1 || i == 5 || i == 9 then i + 4 else if i == 13 then 1
            else if i == 2 || i == 6 then i + 8 else if i == 10 || i == 14 then i - 8
            else if i == 3 then 15 else if i == 7 || i == 11 || i == 15 then i - 4
            else i
  {
  }

  lemma BackTable(i: nat)
    requires i < 16
    ensures F.Back(i)
         == if i == 5 || i == 9 || i == 13 then i - 4 else if i == 1 then 13
            else if i == 2 || i == 6 then i + 8 else if i == 10 || i == 14 then i - 8
            else if i == 15 then 3 else if i == 3 || i == 7 || i == 11 then i + 4
            else i
  {
  }

  lemma AcrossBack(i: nat)
    requires i < 16
    ensures F.Across(F.Back(i)) == i
  {
    hide F.Across, F.Back;
    BackTable(i);
    AcrossTable(F.Back(i));
  }

  lemma ShiftPlace(b: bool, i: nat)
    requires i < 16
    ensures S.Source(Place(b, i)) == Place(b, F.Across(i))
  {
    hide F.Across;
    AcrossTable(i);
  }

  lemma ShiftLane(u: Words, b: bool)
    ensures Lane(S.ShiftRows(u), b) == F.ShiftRows(Lane(u, b))
  {
    hide Place, Cell, S.Shift, S.ShiftRows, S.Source, F.Across;
    forall i: nat | i < 16 ensures Cell(S.ShiftRows(u), Place(b, i)) == Cell(u, Place(b, F.Across(i))) {
      ShiftCell(u, Place(b, i));
      ShiftPlace(b, i);
    }
  }

  /** Shifting back is the only thing that undoes the shift. */
  lemma InvShiftLane(u: Words, b: bool)
    ensures Lane(S.InvShiftRows(u), b) == F.InvShiftRows(Lane(u, b))
  {
    var v := S.InvShiftRows(u);
    ShiftRowsUndoes(u);
    ShiftLane(v, b);
    assert Lane(u, b) == F.ShiftRows(Lane(v, b));
    forall i: nat | i < 16 ensures F.Across(F.Back(i)) == i {
      AcrossBack(i);
    }
    hide Lane, Place, Cell, S.Shift, S.Unshift, S.ShiftRows, S.InvShiftRows, F.Across, F.Back;
    assert F.InvShiftRows(F.ShiftRows(Lane(v, b))) == Lane(v, b);
  }

  lemma ShiftUnshift(x: bv32)
    ensures S.Shift(S.Unshift(x)) == x
  {
    hide S.PermuteStep;
    S.PermuteTwice2(S.PermuteStep(x, 0x0055_0055, 1));
    S.PermuteTwice1(x);
  }

  lemma ShiftRowsUndoes(u: Words)
    ensures S.ShiftRows(S.InvShiftRows(u)) == u
  {
    hide S.Shift, S.Unshift;
    ShiftUnshift(u.b0);
    ShiftUnshift(u.b1);
    ShiftUnshift(u.b2);
    ShiftUnshift(u.b3);
    ShiftUnshift(u.b4);
    ShiftUnshift(u.b5);
    ShiftUnshift(u.b6);
    ShiftUnshift(u.b7);
  }

  // ---------------------------------------------------------------- columns

  lemma X2Cell(u: Words, m: bv5)
    ensures Cell(S.X2(u), m) == F.Double(Cell(u, m))
  {
    hide Bit, S.Xor, Cell;
    CellValue(u, m);
    CellValue(S.X2(u), m);
    S.XorBit(u.b4, u.b0, m);
    S.XorBit(u.b5, u.b0, m);
    S.XorBit(u.b7, u.b0, m);
  }

  lemma TurnCell(u: Words, m: bv5)
    ensures Cell(S.Turn(u), m) == Cell(u, m + 8)
  {
    hide Bit, S.Rotr8, Cell;
    CellValue(u, m + 8);
    CellValue(S.Turn(u), m);
    S.RotrBit(u.b0, m);
    S.RotrBit(u.b1, m);
    S.RotrBit(u.b2, m);
    S.RotrBit(u.b3, m);
    S.RotrBit(u.b4, m);
    S.RotrBit(u.b5, m);
    S.RotrBit(u.b6, m);
    S.RotrBit(u.b7, m);
  }

  lemma DownTable(i: nat)
    requires i < 16
    ensures F.Down(i, 1) == if i == 3 || i == 7 || i == 11 || i == 15 then i - 3 else i + 1
    ensures F.Down(i, 3) == if i == 0 || i == 4 || i == 8 || i == 12 then i + 3 else i - 1
  {
  }

  lemma DownTwice(i: nat)
    requires i < 16
    ensures F.Down(i, 2) == F.Down(F.Down(i, 1), 1)
  {
  }

  lemma PlaceUp(b: bool, i: nat, j: nat)
    requires i < 16 && j == if i == 0 || i == 4 || i == 8 || i == 12 then i + 3 else i - 1
    ensures Place(b, i) + 8 == Place(b, j)
  {
  }

  /** Turning a word by a byte goes up one row, which is down three. */
  lemma TurnPlace(b: bool, i: nat)
    requires i < 16
    ensures Place(b, i) + 8 == Place(b, F.Down(i, 3))
    ensures Place(b, i) + 8 + 8 == Place(b, F.Down(i, 2))
    ensures Place(b, i) + 8 + 8 + 8 == Place(b, F.Down(i, 1))
  {
    hide Place, F.Down;
    var j := F.Down(i, 3);
    var k := F.Down(j, 3);
    DownTable(i);
    DownTwice(i);
    DownTable(j);
    DownTable(k);
    DownTable(F.Down(i, 1));
    PlaceUp(b, i, j);
    PlaceUp(b, j, k);
    PlaceUp(b, k, F.Down(k, 3));
  }

  lemma TurnsAt(u: Words, b: bool, i: nat)
    requires i < 16
    ensures Cell(S.Turn(u), Place(b, i)) == Cell(u, Place(b, F.Down(i, 3)))
    ensures Cell(S.Turn(S.Turn(u)), Place(b, i)) == Cell(u, Place(b, F.Down(i, 2)))
    ensures Cell(S.Turn(S.Turn(S.Turn(u))), Place(b, i)) == Cell(u, Place(b, F.Down(i, 1)))
  {
    hide Place, Cell, S.Turn, F.Down;
    var m := Place(b, i);
    TurnPlace(b, i);
    TurnCell(u, m);
    TurnCell(S.Turn(u), m);
    TurnCell(u, m + 8);
    TurnCell(S.Turn(S.Turn(u)), m);
    TurnCell(S.Turn(u), m + 8);
    TurnCell(u, m + 8 + 8);
  }

  ghost predicate Abelian<T(!new)>(g: Gates<T>) {
    && (forall a, b :: g.xor(a, b) == g.xor(b, a))
    && (forall a, b, c :: g.xor(g.xor(a, b), c) == g.xor(g.xor(a, c), b))
  }

  lemma AddSwaps<T(!new)>(g: Gates<T>, a: Slices<T>, b: Slices<T>, c: Slices<T>)
    requires Abelian(g)
    ensures Add(g, a, b) == Add(g, b, a) && Add(g, Add(g, a, b), c) == Add(g, Add(g, a, c), b)
  {
  }

  lemma BitsAbelian()
    ensures Abelian(BITS)
  {
  }

  lemma Reorder(a: F.Octet, b: F.Octet, c: F.Octet, d: F.Octet)
    ensures F.Sum(F.Sum(F.Sum(a, b), c), d) == F.Sum(F.Sum(F.Sum(a, d), c), b)
    ensures F.Sum(a, b) == F.Sum(b, a)
  {
    BitsAbelian();
    hide Add, Abelian;
    AddSwaps(BITS, Add(BITS, a, b), c, d);
    AddSwaps(BITS, a, b, d);
    AddSwaps(BITS, Add(BITS, a, d), b, c);
  }

  lemma MixCell(u: Words, b: bool, i: nat)
    requires i < 16
    ensures Cell(S.MixColumns(u), Place(b, i)) == F.MixColumn(Lane(u, b), i)
  {
    hide Place, Cell, S.Turn, S.X2, S.Plus, S.MixColumns, F.Down, F.Sum, F.Double;
    var m := Place(b, i);
    var x := S.X2(u);
    S.MixIsPolynomial(u);
    PlusCell(S.Plus(S.Plus(x, S.Turn(u)), S.Turn(S.Turn(u))), S.Turn(S.Turn(S.Turn(S.Plus(u, x)))), m);
    PlusCell(S.Plus(x, S.Turn(u)), S.Turn(S.Turn(u)), m);
    PlusCell(x, S.Turn(u), m);
    TurnsAt(u, b, i);
    TurnsAt(S.Plus(u, x), b, i);
    var j := Place(b, F.Down(i, 1));
    PlusCell(u, x, j);
    X2Cell(u, m);
    X2Cell(u, j);
    Reorder(Cell(u, j), Cell(x, j), Cell(x, j), Cell(x, j));
    Reorder(Cell(x, m), Cell(u, Place(b, F.Down(i, 3))), Cell(u, Place(b, F.Down(i, 2))), F.By3(Cell(u, j)));
  }

  lemma MixLane(u: Words, b: bool)
    ensures Lane(S.MixColumns(u), b) == F.MixColumns(Lane(u, b))
  {
    hide Place, Cell, S.MixColumns, F.MixColumn;
    forall i: nat | i < 16 ensures Cell(S.MixColumns(u), Place(b, i)) == F.MixColumn(Lane(u, b), i) {
      MixCell(u, b, i);
    }
  }

  lemma InvMixCell(u: Words, b: bool, i: nat)
    requires i < 16
    ensures Cell(S.InvMixColumns(u), Place(b, i)) == F.InvMixColumn(Lane(u, b), i)
  {
    hide Place, Cell, S.Turn, S.X2, S.Plus, S.InvMixColumns, F.Down, F.Sum, F.Double;
    var m := Place(b, i);
    var x := S.X2(u);
    var q := S.X2(x);
    var y := S.X2(q);
    var s9 := S.Plus(y, u);
    S.KeyMixIsInvMix(u);
    var s11, s13, s14 := S.Plus(s9, x), S.Plus(s9, q), S.Plus(S.Plus(y, q), x);
    PlusCell(S.Plus(S.Plus(s14, S.Turn(s9)), S.Turn(S.Turn(s13))), S.Turn(S.Turn(S.Turn(s11))), m);
    PlusCell(S.Plus(s14, S.Turn(s9)), S.Turn(S.Turn(s13)), m);
    PlusCell(s14, S.Turn(s9), m);
    TurnsAt(s9, b, i);
    TurnsAt(s13, b, i);
    TurnsAt(s11, b, i);
    Coefficients(u, m);
    Coefficients(u, Place(b, F.Down(i, 1)));
    Coefficients(u, Place(b, F.Down(i, 2)));
    Coefficients(u, Place(b, F.Down(i, 3)));
    hide F.By9, F.By11, F.By13, F.By14;
    Reorder(F.By14(Cell(u, m)), F.By9(Cell(u, Place(b, F.Down(i, 3)))), F.By13(Cell(u, Place(b, F.Down(i, 2)))),
            F.By11(Cell(u, Place(b, F.Down(i, 1)))));
  }

  lemma Coefficients(u: Words, m: bv5)
    ensures
      var x := S.X2(u);
      var q := S.X2(x);
      var y := S.X2(q);
      var s9 := S.Plus(y, u);
      && Cell(s9, m) == F.By9(Cell(u, m))
      && Cell(S.Plus(s9, x), m) == F.By11(Cell(u, m))
      && Cell(S.Plus(s9, q), m) == F.By13(Cell(u, m))
      && Cell(S.Plus(S.Plus(y, q), x), m) == F.By14(Cell(u, m))
  {
    hide Cell, S.X2, S.Plus, F.Sum, F.Double;
    var x := S.X2(u);
    var q := S.X2(x);
    var y := S.X2(q);
    var s9 := S.Plus(y, u);
    X2Cell(u, m);
    X2Cell(x, m);
    X2Cell(q, m);
    PlusCell(y, u, m);
    PlusCell(s9, x, m);
    PlusCell(s9, q, m);
    PlusCell(y, q, m);
    PlusCell(S.Plus(y, q), x, m);
  }

  lemma InvMixLane(u: Words, b: bool)
    ensures Lane(S.InvMixColumns(u), b) == F.InvMixColumns(Lane(u, b))
  {
    hide Place, Cell, S.InvMixColumns, F.InvMixColumn;
    forall i: nat | i < 16 ensures Cell(S.InvMixColumns(u), Place(b, i)) == F.InvMixColumn(Lane(u, b), i) {
      InvMixCell(u, b, i);
    }
  }

  // ---------------------------------------------------------------- words

  /** The four words of one of the two blocks. */
  function Half(u: Words, b: bool): (w: seq<bv32>)
    ensures |w| == 4
  {
    if b then [u.b4, u.b5, u.b6, u.b7] else [u.b0, u.b1, u.b2, u.b3]
  }

  lemma TransposeCell(u: Words, m: bv5)
    ensures
      var w := S.Pick(u, 7 ^ (m & 7));
      Cell(S.Transpose(u), m)
      == Slices(Bit(w, (m & 24) | 7), Bit(w, (m & 24) | 6), Bit(w, (m & 24) | 5), Bit(w, (m & 24) | 4),
                Bit(w, (m & 24) | 3), Bit(w, (m & 24) | 2), Bit(w, (m & 24) | 1), Bit(w, m & 24))
  {
    hide Bit, Cell, S.Transpose, S.Pick;
    var v := S.Transpose(u);
    CellValue(v, m);
    S.PickLiterals(v);
    S.TransposeBit(u, 0, m);
    S.TransposeBit(u, 1, m);
    S.TransposeBit(u, 2, m);
    S.TransposeBit(u, 3, m);
    S.TransposeBit(u, 4, m);
    S.TransposeBit(u, 5, m);
    S.TransposeBit(u, 6, m);
    S.TransposeBit(u, 7, m);
  }

  lemma PlacePick(u: Words, b: bool, i: nat)
    requires i < 16
    ensures S.Pick(u, 7 ^ (Place(b, i) & 7)) == Half(u, b)[i / 4]
    ensures Place(b, i) & 24 == if i % 4 == 0 then 24 else if i % 4 == 1 then 16 else if i % 4 == 2 then 8 else 0
  {
  }

  lemma TransposeOctet(u: Words, b: bool, i: nat)
    requires i < 16
    ensures Cell(S.Transpose(u), Place(b, i)) == F.OctetOf(Half(u, b)[i / 4], i % 4)
  {
    hide Bit, Cell, S.Transpose, S.Pick, Place, Half;
    TransposeCell(u, Place(b, i));
    PlacePick(u, b, i);
  }

  /** The slices of transposed words show the bytes of the words. */
  lemma TransposeLane(u: Words, b: bool)
    ensures Lane(S.Transpose(u), b) == F.Columns(Half(u, b))
  {
    hide Cell, S.Transpose, Place, Half, F.OctetOf;
    forall i: nat | i < 16 ensures Cell(S.Transpose(u), Place(b, i)) == F.OctetOf(Half(u, b)[i / 4], i % 4) {
      TransposeOctet(u, b, i);
    }
  }

  lemma KeyLane(k: seq<bv32>, b: bool)
    requires |k| == 4
    ensures Lane(S.KsExpand(k[0], k[1], k[2], k[3]), b) == F.Columns(k)
  {
    hide S.KsExpand, S.Transpose, Lane, F.Columns;
    S.KsExpandIsTranspose(k[0], k[1], k[2], k[3]);
    TransposeLane(S.Doubled(k[0], k[1], k[2], k[3]), b);
    assert Half(S.Doubled(k[0], k[1], k[2], k[3]), b) == k;
  }
}
