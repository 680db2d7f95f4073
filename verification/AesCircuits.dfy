/** The two S-box circuits of the bitsliced AES, over any type of wires, and the proof that the second
    undoes the first. */
module AesCircuits {
  /** One wire per bit of a byte, the highest bit first. */
  datatype Slices<T> = Slices(b0: T, b1: T, b2: T, b3: T, b4: T, b5: T, b6: T, b7: T)

  /** The gates the circuits are made of. */
  datatype Gates<!T> = Gates(xor: (T, T) -> T, and: (T, T) -> T, not: T -> T)

  /** The S-box circuit of 113 gates. */
  function Sbox<T>(g: Gates<T>, u: Slices<T>): Slices<T> {
    var y14 := g.xor(u.b3, u.b5);
    var y13 := g.xor(u.b0, u.b6);
    var y9 := g.xor(u.b0, u.b3);
    var y8 := g.xor(u.b0, u.b5);
    var t0 := g.xor(u.b1, u.b2);
    var y1 := g.xor(t0, u.b7);
    var y4 := g.xor(y1, u.b3);
    var y12 := g.xor(y13, y14);
    var y2 := g.xor(y1, u.b0);
    var y5 := g.xor(y1, u.b6);
    var y3 := g.xor(y5, y8);
    var t1 := g.xor(u.b4, y12);
    var y15 := g.xor(t1, u.b5);
    var y20 := g.xor(t1, u.b1);
    var y6 := g.xor(y15, u.b7);
    var y10 := g.xor(y15, t0);
    var y11 := g.xor(y20, y9);
    var y7 := g.xor(u.b7, y11);
    var y17 := g.xor(y10, y11);
    var y19 := g.xor(y10, y8);
    var y16 := g.xor(t0, y11);
    var y21 := g.xor(y13, y16);
    var y18 := g.xor(u.b0, y16);
    var t2 := g.and(y12, y15);
    var t3 := g.and(y3, y6);
    var t4 := g.xor(t3, t2);
    var t5 := g.and(y4, u.b7);
    var t6 := g.xor(t5, t2);
    var t7 := g.and(y13, y16);
    var t8 := g.and(y5, y1);
    var t9 := g.xor(t8, t7);
    var t10 := g.and(y2, y7);
    var t11 := g.xor(t10, t7);
    var t12 := g.and(y9, y11);
    var t13 := g.and(y14, y17);
    var t14 := g.xor(t13, t12);
    var t15 := g.and(y8, y10);
    var t16 := g.xor(t15, t12);
    var t17 := g.xor(t4, y20);
    var t18 := g.xor(t6, t16);
    var t19 := g.xor(t9, t14);
    var t20 := g.xor(t11, t16);
    var t21 := g.xor(t17, t14);
    var t22 := g.xor(t18, y19);
    var t23 := g.xor(t19, y21);
    var t24 := g.xor(t20, y18);
    var t25 := g.xor(t21, t22);
    var t26 := g.and(t21, t23);
    var t27 := g.xor(t24, t26);
    var t28 := g.and(t25, t27);
    var t29 := g.xor(t28, t22);
    var t30 := g.xor(t23, t24);
    var t31 := g.xor(t22, t26);
    var t32 := g.and(t31, t30);
    var t33 := g.xor(t32, t24);
    var t34 := g.xor(t23, t33);
    var t35 := g.xor(t27, t33);
    var t36 := g.and(t24, t35);
    var t37 := g.xor(t36, t34);
    var t38 := g.xor(t27, t36);
    var t39 := g.and(t29, t38);
    var t40 := g.xor(t25, t39);
    var t41 := g.xor(t40, t37);
    var t42 := g.xor(t29, t33);
    var t43 := g.xor(t29, t40);
    var t44 := g.xor(t33, t37);
    var t45 := g.xor(t42, t41);
    var z0 := g.and(t44, y15);
    var z1 := g.and(t37, y6);
    var z2 := g.and(t33, u.b7);
    var z3 := g.and(t43, y16);
    var z4 := g.and(t40, y1);
    var z5 := g.and(t29, y7);
    var z6 := g.and(t42, y11);
    var z7 := g.and(t45, y17);
    var z8 := g.and(t41, y10);
    var z9 := g.and(t44, y12);
    var z10 := g.and(t37, y3);
    var z11 := g.and(t33, y4);
    var z12 := g.and(t43, y13);
    var z13 := g.and(t40, y5);
    var z14 := g.and(t29, y2);
    var z15 := g.and(t42, y9);
    var z16 := g.and(t45, y14);
    var z17 := g.and(t41, y8);
    var tc1 := g.xor(z15, z16);
    var tc2 := g.xor(z10, tc1);
    var tc3 := g.xor(z9, tc2);
    var tc4 := g.xor(z0, z2);
    var tc5 := g.xor(z1, z0);
    var tc6 := g.xor(z3, z4);
    var tc7 := g.xor(z12, tc4);
    var tc8 := g.xor(z7, tc6);
    var tc9 := g.xor(z8, tc7);
    var tc10 := g.xor(tc8, tc9);
    var tc11 := g.xor(tc6, tc5);
    var tc12 := g.xor(z3, z5);
    var tc13 := g.xor(z13, tc1);
    var tc14 := g.xor(tc4, tc12);
    var s3 := g.xor(tc3, tc11);
    var tc16 := g.xor(z6, tc8);
    var tc17 := g.xor(z14, tc10);
    var tc18 := g.xor(g.not(tc13), tc14);
    var s7 := g.xor(z12, tc18);
    var tc20 := g.xor(z15, tc16);
    var tc21 := g.xor(tc2, z11);
    var s0 := g.xor(tc3, tc16);
    var s6 := g.xor(tc10, tc18);
    var s4 := g.xor(tc14, s3);
    var s1 := g.not(g.xor(s3, tc16));
    var tc26 := g.xor(tc17, tc20);
    var s2 := g.not(g.xor(tc26, z17));
    var s5 := g.xor(tc21, tc17);
    Slices(s0, s1, s2, s3, s4, s5, s6, s7)
  }

  /** The inverse S-box circuit of 121 gates. */
  function InvSbox<T>(g: Gates<T>, u: Slices<T>): Slices<T> {
    var y0 := g.xor(u.b0, u.b3);
    var y2 := g.not(g.xor(u.b1, u.b3));
    var y4 := g.xor(u.b0, y2);
    var rtl0 := g.xor(u.b6, u.b7);
    var y1 := g.xor(y2, rtl0);
    var y7 := g.not(g.xor(u.b2, y1));
    var rtl1 := g.xor(u.b3, u.b4);
    var y6 := g.not(g.xor(u.b7, rtl1));
    var y3 := g.xor(y1, rtl1);
    var rtl2 := g.not(g.xor(u.b0, u.b2));
    var y5 := g.xor(u.b5, rtl2);
    var sa1 := g.xor(y0, y2);
    var sa0 := g.xor(y1, y3);
    var sb1 := g.xor(y4, y6);
    var sb0 := g.xor(y5, y7);
    var ah := g.xor(y0, y1);
    var al := g.xor(y2, y3);
    var aa := g.xor(sa0, sa1);
    var bh := g.xor(y4, y5);
    var bl := g.xor(y6, y7);
    var bb := g.xor(sb0, sb1);
    var ab20 := g.xor(sa0, sb0);
    var ab22 := g.xor(al, bl);
    var ab23 := g.xor(y3, y7);
    var ab21 := g.xor(sa1, sb1);
    var abcd1 := g.and(ah, bh);
    var rr1 := g.and(y0, y4);
    var ph11 := g.xor(ab20, abcd1);
    var t01 := g.and(y1, y5);
    var ph01 := g.xor(t01, abcd1);
    var abcd2 := g.and(al, bl);
    var r1 := g.and(y2, y6);
    var pl11 := g.xor(ab22, abcd2);
    var r2 := g.and(y3, y7);
    var pl01 := g.xor(r2, abcd2);
    var r3 := g.and(sa0, sb0);
    var vr1 := g.and(aa, bb);
    var pr1 := g.xor(vr1, r3);
    var wr1 := g.and(sa1, sb1);
    var qr1 := g.xor(wr1, r3);
    var ab0 := g.xor(ph11, rr1);
    var ab1 := g.xor(ph01, ab21);
    var ab2 := g.xor(pl11, r1);
    var ab3 := g.xor(pl01, qr1);
    var cp1 := g.xor(ab0, pr1);
    var cp2 := g.xor(ab1, qr1);
    var cp3 := g.xor(ab2, pr1);
    var cp4 := g.xor(ab3, ab23);
    var tinv1 := g.xor(cp3, cp4);
    var tinv2 := g.and(cp3, cp1);
    var tinv3 := g.xor(cp2, tinv2);
    var tinv4 := g.xor(cp1, cp2);
    var tinv5 := g.xor(cp4, tinv2);
    var tinv6 := g.and(tinv5, tinv4);
    var tinv7 := g.and(tinv3, tinv1);
    var d2 := g.xor(cp4, tinv7);
    var d0 := g.xor(cp2, tinv6);
    var tinv8 := g.and(cp1, cp4);
    var tinv9 := g.and(tinv4, tinv8);
    var tinv10 := g.xor(tinv4, tinv2);
    var d1 := g.xor(tinv9, tinv10);
    var tinv11 := g.and(cp2, cp3);
    var tinv12 := g.and(tinv1, tinv11);
    var tinv13 := g.xor(tinv1, tinv2);
    var d3 := g.xor(tinv12, tinv13);
    var sd1 := g.xor(d1, d3);
    var sd0 := g.xor(d0, d2);
    var dl := g.xor(d0, d1);
    var dh := g.xor(d2, d3);
    var dd := g.xor(sd0, sd1);
    var abcd3 := g.and(dh, bh);
    var rr2 := g.and(d3, y4);
    var t02 := g.and(d2, y5);
    var abcd4 := g.and(dl, bl);
    var r4 := g.and(d1, y6);
    var r5 := g.and(d0, y7);
    var r6 := g.and(sd0, sb0);
    var vr2 := g.and(dd, bb);
    var wr2 := g.and(sd1, sb1);
    var abcd5 := g.and(dh, ah);
    var r7 := g.and(d3, y0);
    var r8 := g.and(d2, y1);
    var abcd6 := g.and(dl, al);
    var r9 := g.and(d1, y2);
    var r10 := g.and(d0, y3);
    var r11 := g.and(sd0, sa0);
    var vr3 := g.and(dd, aa);
    var wr3 := g.and(sd1, sa1);
    var ph12 := g.xor(rr2, abcd3);
    var ph02 := g.xor(t02, abcd3);
    var pl12 := g.xor(r4, abcd4);
    var pl02 := g.xor(r5, abcd4);
    var pr2 := g.xor(vr2, r6);
    var qr2 := g.xor(wr2, r6);
    var p0 := g.xor(ph12, pr2);
    var p1 := g.xor(ph02, qr2);
    var p2 := g.xor(pl12, pr2);
    var p3 := g.xor(pl02, qr2);
    var ph13 := g.xor(r7, abcd5);
    var ph03 := g.xor(r8, abcd5);
    var pl13 := g.xor(r9, abcd6);
    var pl03 := g.xor(r10, abcd6);
    var pr3 := g.xor(vr3, r11);
    var qr3 := g.xor(wr3, r11);
    var p4 := g.xor(ph13, pr3);
    var s7 := g.xor(ph03, qr3);
    var p6 := g.xor(pl13, pr3);
    var p7 := g.xor(pl03, qr3);
    var s3 := g.xor(p1, p6);
    var s6 := g.xor(p2, p6);
    var s0 := g.xor(p3, p6);
    var x11 := g.xor(p0, p2);
    var s5 := g.xor(s0, x11);
    var x13 := g.xor(p4, p7);
    var x14 := g.xor(x11, x13);
    var s1 := g.xor(s3, x14);
    var x16 := g.xor(p1, s7);
    var s2 := g.xor(x14, x16);
    var x18 := g.xor(p0, p4);
    var x19 := g.xor(s5, x16);
    var s4 := g.xor(x18, x19);
    Slices(s0, s1, s2, s3, s4, s5, s6, s7)
  }

  // ---------------------------------------------------------------- circuits and homomorphisms

  /** h turns the gates g into the gates g'. */
  ghost predicate Homomorphism<T(!new), U(!new)>(g: Gates<T>, g': Gates<U>, h: T -> U) {
    && (forall a, b :: h(g.xor(a, b)) == g'.xor(h(a), h(b)))
    && (forall a, b :: h(g.and(a, b)) == g'.and(h(a), h(b)))
    && (forall a :: h(g.not(a)) == g'.not(h(a)))
  }

  function Map<T, U>(h: T -> U, u: Slices<T>): Slices<U> {
    Slices(h(u.b0), h(u.b1), h(u.b2), h(u.b3), h(u.b4), h(u.b5), h(u.b6), h(u.b7))
  }

  /** A circuit commutes with every homomorphism of gates. */
  lemma SboxMap<T(!new), U(!new)>(g: Gates<T>, g': Gates<U>, h: T -> U, u: Slices<T>)
    requires Homomorphism(g, g', h)
    ensures Map(h, Sbox(g, u)) == Sbox(g', Map(h, u))
  {
  }

  lemma InvSboxMap<T(!new), U(!new)>(g: Gates<T>, g': Gates<U>, h: T -> U, u: Slices<T>)
    requires Homomorphism(g, g', h)
    ensures Map(h, InvSbox(g, u)) == InvSbox(g', Map(h, u))
  {
  }

  // ---------------------------------------------------------------- truth tables

  const BITS: Gates<bool> := Gates((a: bool, b: bool) => a != b, (a: bool, b: bool) => a && b, (a: bool) => !a)

  const TABLES: Gates<bv64> := Gates((a: bv64, b: bv64) => a ^ b, (a: bv64, b: bv64) => a & b, (a: bv64) => !a)

  /** The truth tables of six inputs, with the other two held fixed: bit i of table k is bit k of i. */
  function Inputs(b6: bool, b7: bool): Slices<bv64> {
    Slices(0xAAAA_AAAA_AAAA_AAAA, 0xCCCC_CCCC_CCCC_CCCC, 0xF0F0_F0F0_F0F0_F0F0, 0xFF00_FF00_FF00_FF00,
           0xFFFF_0000_FFFF_0000, 0xFFFF_FFFF_0000_0000,
           if b6 then 0xFFFF_FFFF_FFFF_FFFF else 0, if b7 then 0xFFFF_FFFF_FFFF_FFFF else 0)
  }

  lemma InverseOnTables11() ensures InvSbox(TABLES, Sbox(TABLES, Inputs(true, true))) == Inputs(true, true) { }

  lemma InverseOnTables10() ensures InvSbox(TABLES, Sbox(TABLES, Inputs(true, false))) == Inputs(true, false) { }

  lemma InverseOnTables01() ensures InvSbox(TABLES, Sbox(TABLES, Inputs(false, true))) == Inputs(false, true) { }

  lemma InverseOnTables00() ensures InvSbox(TABLES, Sbox(TABLES, Inputs(false, false))) == Inputs(false, false) { }

  /** On truth tables, the inverse circuit undoes the circuit. */
  lemma InverseOnTables(b6: bool, b7: bool)
    ensures InvSbox(TABLES, Sbox(TABLES, Inputs(b6, b7))) == Inputs(b6, b7)
  {
    hide Sbox, InvSbox, Inputs;
    InverseOnTables11();
    InverseOnTables10();
    InverseOnTables01();
    InverseOnTables00();
  }

  lemma BitsGates(a: bool, b: bool)
    ensures BITS.xor(a, b) == (a != b) && BITS.and(a, b) == (a && b) && BITS.not(a) == !a
  {
  }

  function Bit64(x: bv64, i: bv6): bool { (x >> i) & 1 == 1 }

  function One(b: bool, m: bv6): bv6 { if b then m else 0 }

  /** The row of the truth tables for the given inputs. */
  function Row(u: Slices<bool>): bv6 {
    One(u.b0, 1) | One(u.b1, 2) | One(u.b2, 4) | One(u.b3, 8) | One(u.b4, 16) | One(u.b5, 32)
  }

  // One gate each: together they are too much for the solver.
  lemma Bit64Xor(a: bv64, b: bv64, i: bv6) ensures Bit64(a ^ b, i) == (Bit64(a, i) != Bit64(b, i)) { }

  lemma Bit64And(a: bv64, b: bv64, i: bv6) ensures Bit64(a & b, i) == (Bit64(a, i) && Bit64(b, i)) { }

  lemma Bit64Not(a: bv64, i: bv6) ensures Bit64(!a, i) == !Bit64(a, i) { }

  function Reader(i: bv6): bv64 -> bool { (x: bv64) => Bit64(x, i) }

  lemma ReaderValue(a: bv64, i: bv6) ensures Reader(i)(a) == Bit64(a, i) { hide Bit64; }

  lemma TablesXor(a: bv64, b: bv64) ensures TABLES.xor(a, b) == a ^ b { }

  lemma TablesAnd(a: bv64, b: bv64) ensures TABLES.and(a, b) == a & b { }

  lemma TablesNot(a: bv64) ensures TABLES.not(a) == !a { }

  lemma ReaderGates(a: bv64, b: bv64, i: bv6)
    ensures Reader(i)(TABLES.xor(a, b)) == BITS.xor(Reader(i)(a), Reader(i)(b))
    ensures Reader(i)(TABLES.and(a, b)) == BITS.and(Reader(i)(a), Reader(i)(b))
    ensures Reader(i)(TABLES.not(a)) == BITS.not(Reader(i)(a))
  {
    hide Bit64, Reader;
    TablesXor(a, b);
    TablesAnd(a, b);
    TablesNot(a);
    Bit64Xor(a, b, i);
    Bit64And(a, b, i);
    Bit64Not(a, i);
    ReaderValue(a, i);
    ReaderValue(b, i);
    ReaderValue(a ^ b, i);
    ReaderValue(a & b, i);
    ReaderValue(!a, i);
    BitsGates(Bit64(a, i), Bit64(b, i));
  }

  /** Reading one bit is a homomorphism. */
  lemma ReaderIsHomomorphism(i: bv6)
    ensures Homomorphism(TABLES, BITS, Reader(i))
  {
    hide Reader;
    forall a, b ensures Reader(i)(TABLES.xor(a, b)) == BITS.xor(Reader(i)(a), Reader(i)(b)) {
      ReaderGates(a, b, i);
    }
    forall a, b ensures Reader(i)(TABLES.and(a, b)) == BITS.and(Reader(i)(a), Reader(i)(b)) {
      ReaderGates(a, b, i);
    }
    forall a ensures Reader(i)(TABLES.not(a)) == BITS.not(Reader(i)(a)) {
      ReaderGates(a, a, i);
    }
  }

  lemma RowBits(u: Slices<bool>)
    ensures Map(Reader(Row(u)), Inputs(u.b6, u.b7)) == u
  {
    var i := Row(u);
    RowValue(u.b0, u.b1, u.b2, u.b3, u.b4, u.b5, i);
    TableBits(i);
    hide Bit64, Row, One;
    Constants(i);
  }

  lemma RowValue(b0: bool, b1: bool, b2: bool, b3: bool, b4: bool, b5: bool, i: bv6)
    requires i == One(b0, 1) | One(b1, 2) | One(b2, 4) | One(b3, 8) | One(b4, 16) | One(b5, 32)
    ensures (i & 1 == 1) == b0 && (i & 2 == 2) == b1 && (i & 4 == 4) == b2
    ensures (i & 8 == 8) == b3 && (i & 16 == 16) == b4 && (i & 32 == 32) == b5
  {
  }

  lemma TableBits(i: bv6)
    ensures Bit64(0xAAAA_AAAA_AAAA_AAAA, i) == (i & 1 == 1) && Bit64(0xCCCC_CCCC_CCCC_CCCC, i) == (i & 2 == 2)
    ensures Bit64(0xF0F0_F0F0_F0F0_F0F0, i) == (i & 4 == 4) && Bit64(0xFF00_FF00_FF00_FF00, i) == (i & 8 == 8)
    ensures Bit64(0xFFFF_0000_FFFF_0000, i) == (i & 16 == 16) && Bit64(0xFFFF_FFFF_0000_0000, i) == (i & 32 == 32)
  {
  }

  lemma Constants(i: bv6)
    ensures Bit64(0xFFFF_FFFF_FFFF_FFFF, i) && !Bit64(0, i)
  {
  }

  /** The inverse circuit undoes the circuit on every byte. */
  lemma InverseOnBits(u: Slices<bool>)
    ensures InvSbox(BITS, Sbox(BITS, u)) == u
  {
    var h, t := Reader(Row(u)), Inputs(u.b6, u.b7);
    hide Sbox, InvSbox, Map, Reader, Row, Inputs, Homomorphism;
    RowBits(u);
    InverseOnTables(u.b6, u.b7);
    ReaderIsHomomorphism(Row(u));
    SboxMap(TABLES, BITS, h, t);
    InvSboxMap(TABLES, BITS, h, Sbox(TABLES, t));
  }

  // ---------------------------------------------------------------- words

  const WORDS: Gates<bv32> := Gates((a: bv32, b: bv32) => a ^ b, (a: bv32, b: bv32) => a & b, (a: bv32) => !a)

  function Bit(w: bv32, m: bv5): bool { (w >> m) & 1 == 1 }

  function At(m: bv5): bv32 -> bool { (w: bv32) => Bit(w, m) }

  // One gate each: together they are too much for the solver.
  lemma BitXor(a: bv32, b: bv32, m: bv5) ensures Bit(a ^ b, m) == (Bit(a, m) != Bit(b, m)) { }

  lemma BitAnd(a: bv32, b: bv32, m: bv5) ensures Bit(a & b, m) == (Bit(a, m) && Bit(b, m)) { }

  lemma BitNot(a: bv32, m: bv5) ensures Bit(!a, m) == !Bit(a, m) { }

  lemma AtValue(a: bv32, m: bv5) ensures At(m)(a) == Bit(a, m) { hide Bit; }

  lemma WordsXor(a: bv32, b: bv32) ensures WORDS.xor(a, b) == a ^ b { }

  lemma WordsAnd(a: bv32, b: bv32) ensures WORDS.and(a, b) == a & b { }

  lemma WordsNot(a: bv32) ensures WORDS.not(a) == !a { }

  lemma AtGates(a: bv32, b: bv32, m: bv5)
    ensures At(m)(WORDS.xor(a, b)) == BITS.xor(At(m)(a), At(m)(b))
    ensures At(m)(WORDS.and(a, b)) == BITS.and(At(m)(a), At(m)(b))
    ensures At(m)(WORDS.not(a)) == BITS.not(At(m)(a))
  {
    hide Bit, At;
    WordsXor(a, b);
    WordsAnd(a, b);
    WordsNot(a);
    BitXor(a, b, m);
    BitAnd(a, b, m);
    BitNot(a, m);
    AtValue(a, m);
    AtValue(b, m);
    AtValue(a ^ b, m);
    AtValue(a & b, m);
    AtValue(!a, m);
    BitsGates(Bit(a, m), Bit(b, m));
  }

  /** Reading one bit is a homomorphism. */
  lemma AtIsHomomorphism(m: bv5)
    ensures Homomorphism(WORDS, BITS, At(m))
  {
    hide At;
    forall a, b ensures At(m)(WORDS.xor(a, b)) == BITS.xor(At(m)(a), At(m)(b)) {
      AtGates(a, b, m);
    }
    forall a, b ensures At(m)(WORDS.and(a, b)) == BITS.and(At(m)(a), At(m)(b)) {
      AtGates(a, b, m);
    }
    forall a ensures At(m)(WORDS.not(a)) == BITS.not(At(m)(a)) {
      AtGates(a, a, m);
    }
  }

  lemma EqualByte0(x: bv32, y: bv32)
    requires Bit(x, 0) == Bit(y, 0) && Bit(x, 1) == Bit(y, 1)
    requires Bit(x, 2) == Bit(y, 2) && Bit(x, 3) == Bit(y, 3)
    requires Bit(x, 4) == Bit(y, 4) && Bit(x, 5) == Bit(y, 5)
    requires Bit(x, 6) == Bit(y, 6) && Bit(x, 7) == Bit(y, 7)
    ensures (x ^ y) & 0xFF == 0
  {
  }

  lemma EqualByte1(x: bv32, y: bv32)
    requires Bit(x, 8) == Bit(y, 8) && Bit(x, 9) == Bit(y, 9)
    requires Bit(x, 10) == Bit(y, 10) && Bit(x, 11) == Bit(y, 11)
    requires Bit(x, 12) == Bit(y, 12) && Bit(x, 13) == Bit(y, 13)
    requires Bit(x, 14) == Bit(y, 14) && Bit(x, 15) == Bit(y, 15)
    ensures (x ^ y) & 0xFF00 == 0
  {
  }

  lemma EqualByte2(x: bv32, y: bv32)
    requires Bit(x, 16) == Bit(y, 16) && Bit(x, 17) == Bit(y, 17)
    requires Bit(x, 18) == Bit(y, 18) && Bit(x, 19) == Bit(y, 19)
    requires Bit(x, 20) == Bit(y, 20) && Bit(x, 21) == Bit(y, 21)
    requires Bit(x, 22) == Bit(y, 22) && Bit(x, 23) == Bit(y, 23)
    ensures (x ^ y) & 0xFF0000 == 0
  {
  }

  lemma EqualByte3(x: bv32, y: bv32)
    requires Bit(x, 24) == Bit(y, 24) && Bit(x, 25) == Bit(y, 25)
    requires Bit(x, 26) == Bit(y, 26) && Bit(x, 27) == Bit(y, 27)
    requires Bit(x, 28) == Bit(y, 28) && Bit(x, 29) == Bit(y, 29)
    requires Bit(x, 30) == Bit(y, 30) && Bit(x, 31) == Bit(y, 31)
    ensures (x ^ y) & 0xFF000000 == 0
  {
  }

  lemma EqualBytes(x: bv32, y: bv32)
    requires (x ^ y) & 0xFF == 0 && (x ^ y) & 0xFF00 == 0 && (x ^ y) & 0xFF_0000 == 0 && (x ^ y) & 0xFF00_0000 == 0
    ensures x == y
  {
  }

  /** Words with the same bits are the same. */
  lemma Extensionality(x: bv32, y: bv32)
    requires forall m :: Bit(x, m) == Bit(y, m)
    ensures x == y
  {
    hide Bit;
    EqualByte0(x, y);
    EqualByte1(x, y);
    EqualByte2(x, y);
    EqualByte3(x, y);
    EqualBytes(x, y);
  }

  /** The inverse circuit undoes the circuit on 32 bytes at once. */
  lemma InverseOnWords(u: Slices<bv32>)
    ensures InvSbox(WORDS, Sbox(WORDS, u)) == u
  {
    var v := InvSbox(WORDS, Sbox(WORDS, u));
    forall m ensures Map(At(m), v) == Map(At(m), u) {
      hide Sbox, InvSbox, Map, At, Homomorphism;
      AtIsHomomorphism(m);
      SboxMap(WORDS, BITS, At(m), u);
      InvSboxMap(WORDS, BITS, At(m), Sbox(WORDS, u));
      InverseOnBits(Map(At(m), u));
    }
    hide Sbox, InvSbox;
    SameSlices(v, u);
  }

  lemma SameSlices(v: Slices<bv32>, u: Slices<bv32>)
    requires forall m :: Map(At(m), v) == Map(At(m), u)
    ensures v == u
  {
    hide Bit;
    forall m
      ensures Bit(v.b0, m) == Bit(u.b0, m) && Bit(v.b1, m) == Bit(u.b1, m) && Bit(v.b2, m) == Bit(u.b2, m) && Bit(v.b3, m) == Bit(u.b3, m)
      ensures Bit(v.b4, m) == Bit(u.b4, m) && Bit(v.b5, m) == Bit(u.b5, m) && Bit(v.b6, m) == Bit(u.b6, m) && Bit(v.b7, m) == Bit(u.b7, m)
    {
      assert Map(At(m), v) == Map(At(m), u);
    }
    Extensionality(v.b0, u.b0);
    Extensionality(v.b1, u.b1);
    Extensionality(v.b2, u.b2);
    Extensionality(v.b3, u.b3);
    Extensionality(v.b4, u.b4);
    Extensionality(v.b5, u.b5);
    Extensionality(v.b6, u.b6);
    Extensionality(v.b7, u.b7);
  }

  // ---------------------------------------------------------------- what the S-box is

  // The field of section 4 of FIPS 197, on wires.

  function Add<T>(g: Gates<T>, u: Slices<T>, v: Slices<T>): Slices<T> {
    Slices(g.xor(u.b0, v.b0), g.xor(u.b1, v.b1), g.xor(u.b2, v.b2), g.xor(u.b3, v.b3),
           g.xor(u.b4, v.b4), g.xor(u.b5, v.b5), g.xor(u.b6, v.b6), g.xor(u.b7, v.b7))
  }

  /** Multiplication by x: the highest bit is carried to the positions of 0x1b. */
  function Xtime<T>(g: Gates<T>, u: Slices<T>): Slices<T> {
    Slices(u.b1, u.b2, u.b3, g.xor(u.b4, u.b0), g.xor(u.b5, u.b0), u.b6, g.xor(u.b7, u.b0), u.b0)
  }

  function Scale<T>(g: Gates<T>, a: T, u: Slices<T>): Slices<T> {
    Slices(g.and(a, u.b0), g.and(a, u.b1), g.and(a, u.b2), g.and(a, u.b3),
           g.and(a, u.b4), g.and(a, u.b5), g.and(a, u.b6), g.and(a, u.b7))
  }

  function FieldMul<T>(g: Gates<T>, u: Slices<T>, v: Slices<T>): Slices<T> {
    var p := Scale(g, u.b0, v);
    var p := Add(g, Xtime(g, p), Scale(g, u.b1, v));
    var p := Add(g, Xtime(g, p), Scale(g, u.b2, v));
    var p := Add(g, Xtime(g, p), Scale(g, u.b3, v));
    var p := Add(g, Xtime(g, p), Scale(g, u.b4, v));
    var p := Add(g, Xtime(g, p), Scale(g, u.b5, v));
    var p := Add(g, Xtime(g, p), Scale(g, u.b6, v));
    Add(g, Xtime(g, p), Scale(g, u.b7, v))
  }

  function Xor5<T>(g: Gates<T>, a: T, b: T, c: T, d: T, e: T): T { g.xor(g.xor(g.xor(g.xor(a, b), c), d), e) }

  /** The affine map of section 5.1.1 of FIPS 197; the constant is 0x63. */
  function Affine<T>(g: Gates<T>, z: Slices<T>): Slices<T> {
    Slices(Xor5(g, z.b0, z.b1, z.b2, z.b3, z.b4), g.not(Xor5(g, z.b1, z.b2, z.b3, z.b4, z.b5)),
           g.not(Xor5(g, z.b2, z.b3, z.b4, z.b5, z.b6)), Xor5(g, z.b3, z.b4, z.b5, z.b6, z.b7),
           Xor5(g, z.b4, z.b5, z.b6, z.b7, z.b0), Xor5(g, z.b5, z.b6, z.b7, z.b0, z.b1),
           g.not(Xor5(g, z.b6, z.b7, z.b0, z.b1, z.b2)), g.not(Xor5(g, z.b7, z.b0, z.b1, z.b2, z.b3)))
  }

  function Xor3<T>(g: Gates<T>, a: T, b: T, c: T): T { g.xor(g.xor(a, b), c) }

  /** Its inverse, with the constant 0x05. */
  function Unaffine<T>(g: Gates<T>, s: Slices<T>): Slices<T> {
    Slices(Xor3(g, s.b1, s.b3, s.b6), Xor3(g, s.b2, s.b4, s.b7), Xor3(g, s.b3, s.b5, s.b0), Xor3(g, s.b4, s.b6, s.b1),
           Xor3(g, s.b5, s.b7, s.b2), g.not(Xor3(g, s.b6, s.b0, s.b3)), Xor3(g, s.b7, s.b1, s.b4), g.not(Xor3(g, s.b0, s.b2, s.b5)))
  }

  /** The field inverse that the circuit has computed before its affine map. */
  function Inverted<T>(g: Gates<T>, u: Slices<T>): Slices<T> { Unaffine(g, Sbox(g, u)) }

  lemma InvertedMap<T(!new), U(!new)>(g: Gates<T>, g': Gates<U>, h: T -> U, u: Slices<T>)
    requires Homomorphism(g, g', h)
    ensures Map(h, Inverted(g, u)) == Inverted(g', Map(h, u))
  {
    SboxMap(g, g', h, u);
    hide Sbox;
  }

  lemma FieldMulMap<T(!new), U(!new)>(g: Gates<T>, g': Gates<U>, h: T -> U, u: Slices<T>, v: Slices<T>)
    requires Homomorphism(g, g', h)
    ensures Map(h, FieldMul(g, u, v)) == FieldMul(g', Map(h, u), Map(h, v))
  {
  }

  lemma AffineMap<T(!new), U(!new)>(g: Gates<T>, g': Gates<U>, h: T -> U, z: Slices<T>)
    requires Homomorphism(g, g', h)
    ensures Map(h, Affine(g, z)) == Affine(g', Map(h, z))
  {
  }

  /** One where some input is set, zero where none is. */
  function NonZero(b6: bool, b7: bool): bv64 { if b6 || b7 then 0xFFFF_FFFF_FFFF_FFFF else 0xFFFF_FFFF_FFFF_FFFE }

  function Unit<T>(zero: T, t: T): Slices<T> { Slices(zero, zero, zero, zero, zero, zero, zero, t) }

  /** The field inverse where there is one, zero at zero; and the affine map of it is the S-box. */
  predicate FipsTables(b6: bool, b7: bool) {
    var u := Inputs(b6, b7);
    var z := Inverted(TABLES, u);
    && FieldMul(TABLES, u, z) == Unit(0, NonZero(b6, b7))
    && Scale(TABLES, NonZero(b6, b7), z) == z
    && Affine(TABLES, z) == Sbox(TABLES, u)
  }

  lemma FipsTables11() ensures FipsTables(true, true) { }

  lemma FipsTables10() ensures FipsTables(true, false) { }

  lemma FipsTables01() ensures FipsTables(false, true) { }

  lemma FipsTables00() ensures FipsTables(false, false) { }

  const ZERO: Slices<bool> := Unit(false, false)

  lemma NonZeroRow(u: Slices<bool>)
    ensures Reader(Row(u))(NonZero(u.b6, u.b7)) == (u != ZERO) && !Reader(Row(u))(0)
  {
    RowValue(u.b0, u.b1, u.b2, u.b3, u.b4, u.b5, Row(u));
    RowZero(Row(u));
    hide Bit64, Row, One;
    ReaderValue(NonZero(u.b6, u.b7), Row(u));
    ReaderValue(0, Row(u));
    Constants(Row(u));
    hide Reader;
  }

  lemma RowZero(i: bv6)
    ensures Bit64(0xFFFF_FFFF_FFFF_FFFE, i) == (i != 0)
    ensures i == 0 <==> !(i & 1 == 1) && !(i & 2 == 2) && !(i & 4 == 4) && !(i & 8 == 8) && !(i & 16 == 16) && !(i & 32 == 32)
  {
  }

  /** The circuit is the S-box of FIPS 197: the affine map of the multiplicative inverse. */
  lemma SboxIsFips197(u: Slices<bool>)
    ensures var z := Inverted(BITS, u);
            && Sbox(BITS, u) == Affine(BITS, z)
            && FieldMul(BITS, u, z) == Unit(false, u != ZERO)
            && (u == ZERO ==> z == ZERO)
  {
    hide Sbox, Reader, Row, Inputs, Homomorphism, Inverted, FieldMul, Affine, NonZero, FipsTables, Scale;
    var h, t := Reader(Row(u)), Inputs(u.b6, u.b7);
    var n := NonZero(u.b6, u.b7);
    var z := Inverted(TABLES, t);
    FipsOnTables(u.b6, u.b7);
    NonZeroRow(u);
    RowBits(u);
    ReaderIsHomomorphism(Row(u));
    SboxMap(TABLES, BITS, h, t);
    InvertedMap(TABLES, BITS, h, t);
    FieldMulMap(TABLES, BITS, h, t, z);
    AffineMap(TABLES, BITS, h, z);
    if u == ZERO {
      ScaleMap(TABLES, BITS, h, n, z);
      ScaleByZero(Map(h, z));
    }
  }

  lemma FipsOnTables(b6: bool, b7: bool)
    ensures var u := Inputs(b6, b7);
            var z := Inverted(TABLES, u);
            && FieldMul(TABLES, u, z) == Unit(0, NonZero(b6, b7))
            && Scale(TABLES, NonZero(b6, b7), z) == z
            && Affine(TABLES, z) == Sbox(TABLES, u)
  {
    hide Sbox, Inputs, Inverted, FieldMul, Affine, NonZero, Scale, Unit;
    FipsTablesAll(b6, b7);
  }

  lemma FipsTablesAll(b6: bool, b7: bool)
    ensures FipsTables(b6, b7)
  {
    hide FipsTables;
    FipsTables11();
    FipsTables10();
    FipsTables01();
    FipsTables00();
  }

  lemma ScaleMap<T(!new), U(!new)>(g: Gates<T>, g': Gates<U>, h: T -> U, a: T, u: Slices<T>)
    requires Homomorphism(g, g', h)
    ensures Map(h, Scale(g, a, u)) == Scale(g', h(a), Map(h, u))
  {
  }

  lemma ScaleByZero(u: Slices<bool>)
    ensures Scale(BITS, false, u) == ZERO
  {
  }
}
