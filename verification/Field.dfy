/**
 * Bytes as elements of GF(2^8), the product macros of the cipher, and its substitution tables (FIPS 197, sections
 * 4 and 5.1.1).
 */
module Field {
  type byte = bv8

  // ----- the field, from its definition -----

  /** The sum of two polynomials over GF(2). */
  function Add(p: bv16, q: bv16): bv16 { p ^ q }

  function Term(b: bool, p: bv16): bv16 { if b then p else 0 }

  function Horner(b: bool, a: bv16, rest: bv16): bv16 { Add(Term(b, a), rest << 1) }

  /** Their product. */
  function Carryless(a: bv16, b: byte): bv16 {
    Horner(b & 0x01 != 0, a, Horner(b & 0x02 != 0, a, Horner(b & 0x04 != 0, a, Horner(b & 0x08 != 0, a,
      Horner(b & 0x10 != 0, a, Horner(b & 0x20 != 0, a, Horner(b & 0x40 != 0, a, Horner(b & 0x80 != 0, a, 0))))))))
  }

  /** One step of long division: clear the term `top` with the multiple `m` of the modulus that starts with it. */
  function Clear(p: bv16, top: bv16, m: bv16): bv16 { if p & top != 0 then p ^ m else p }

  /** Remainder modulo x^8 + x^4 + x^3 + x + 1. */
  function Reduce(p: bv16): byte {
    var p14 := Clear(p, 0x4000, 0x46C0);
    var p13 := Clear(p14, 0x2000, 0x2360);
    var p12 := Clear(p13, 0x1000, 0x11B0);
    var p11 := Clear(p12, 0x0800, 0x08D8);
    var p10 := Clear(p11, 0x0400, 0x046C);
    var p9 := Clear(p10, 0x0200, 0x0236);
    var p8 := Clear(p9, 0x0100, 0x011B);
    LowByte(p8)
  }

  function LowByte(p: bv16): byte { (p & 0xFF) as byte }

  /** The product in GF(2^8). */
  function Product(a: byte, b: byte): byte { Reduce(Carryless(a as bv16, b)) }

  // ----- the macros of the source, which work on wider integers and are cut when stored -----

  /** `xtime` */
  function WideXtime(x: bv32): bv32 { (x << 1) ^ (((x >> 7) & 1) * 0x1b) }

  function WideXor(a: bv32, b: bv32): bv32 { a ^ b }

  function WideTimes(a: bv32, b: bv32): bv32 { a * b }

  /** The bits of `y` select among the values. */
  function Selected(y: bv32, x: bv32, x2: bv32, x4: bv32, x8: bv32, x16: bv32): bv32 {
    WideXor(WideXor(WideXor(WideXor(WideTimes(y & 1, x), WideTimes((y >> 1) & 1, x2)), WideTimes((y >> 2) & 1, x4)),
                    WideTimes((y >> 3) & 1, x8)),
            WideTimes((y >> 4) & 1, x16))
  }

  /** `Multiply` */
  function WideMultiply(x: bv32, y: bv32): bv32 {
    Selected(y, x, WideXtime(x), WideXtime(WideXtime(x)), WideXtime(WideXtime(WideXtime(x))),
             WideXtime(WideXtime(WideXtime(WideXtime(x)))))
  }

  /** Assignment to an `unsigned char`. */
  function Store(x: bv32): byte { (x & 0xFF) as byte }

  lemma XtimeIsProduct(x: byte)
    ensures Store(WideXtime(x as bv32)) == Product(x, 0x02)
  {
  }

  // ----- multiplication as a linear map -----

  function Xor(a: byte, b: byte): byte { a ^ b }

  function Sum4(a: byte, b: byte, c: byte, d: byte): byte { Xor(Xor(a, b), Xor(c, d)) }

  lemma XorCommutes(a: byte, b: byte)
    ensures Xor(a, b) == Xor(b, a)
  {
  }

  lemma Regroup(a: byte, b: byte, c: byte, d: byte)
    ensures Xor(Xor(a, b), Xor(c, d)) == Xor(Xor(a, c), Xor(b, d))
  {
    assert (a ^ b) ^ (c ^ d) == (a ^ c) ^ (b ^ d);
  }

  lemma AddSums(a: byte, b: byte, c: byte, d: byte, e: byte, f: byte, g: byte, h: byte)
    ensures Xor(Sum4(a, b, c, d), Sum4(e, f, g, h)) == Sum4(Xor(a, e), Xor(b, f), Xor(c, g), Xor(d, h))
  {
    hide Xor;
    Regroup(Xor(a, b), Xor(c, d), Xor(e, f), Xor(g, h));
    Regroup(a, b, e, f);
    Regroup(c, d, g, h);
  }

  function Double(x: byte): byte { (x << 1) ^ (x >> 7) ^ ((x >> 7) << 1) ^ ((x >> 7) << 3) ^ ((x >> 7) << 4) }

  lemma DoubleIsLinear(a: byte, b: byte)
    ensures Double(Xor(a, b)) == Xor(Double(a), Double(b))
  {
    assert Double(a ^ b) == Double(a) ^ Double(b);
  }

  function Eightfold(x: byte): byte { Double(Double(Double(x))) }

  // The constants of the column matrices, as sums of doublings.

  function Times3(x: byte): byte { Xor(Double(x), x) }

  function Times9(x: byte): byte { Xor(Eightfold(x), x) }

  function TimesB(x: byte): byte { Xor(Xor(Eightfold(x), Double(x)), x) }

  function TimesD(x: byte): byte { Xor(Xor(Eightfold(x), Double(Double(x))), x) }

  function TimesE(x: byte): byte { Xor(Xor(Eightfold(x), Double(Double(x))), Double(x)) }

  lemma ProductBy2(x: byte)
    ensures Product(x, 0x02) == Double(x)
  {
  }

  lemma ProductBy3(x: byte)
    ensures Product(x, 0x03) == Times3(x)
  {
  }

  lemma ProductBy9(x: byte)
    ensures Product(x, 0x09) == Times9(x)
  {
  }

  lemma ProductByB(x: byte)
    ensures Product(x, 0x0b) == TimesB(x)
  {
  }

  lemma ProductByD(x: byte)
    ensures Product(x, 0x0d) == TimesD(x)
  {
  }

  lemma ProductByE(x: byte)
    ensures Product(x, 0x0e) == TimesE(x)
  {
  }

  // ----- the macro products -----

  lemma XtimeStored(x: bv32)
    ensures Store(WideXtime(x)) == Double(Store(x))
  {
  }

  lemma TriplyDoubled(x: byte)
    ensures var w := x as bv32;
            && Store(w) == x && Store(WideXtime(w)) == Double(x) && Store(WideXtime(WideXtime(w))) == Double(Double(x))
            && Store(WideXtime(WideXtime(WideXtime(w)))) == Eightfold(x)
  {
    var w := x as bv32;
    assert Store(w) == x;
    hide WideXtime, Double, Store;
    XtimeStored(w);
    XtimeStored(WideXtime(w));
    XtimeStored(WideXtime(WideXtime(w)));
  }

  lemma StoredSum(a: bv32, b: bv32)
    ensures Store(WideXor(a, b)) == Xor(Store(a), Store(b))
  {
  }

  lemma TimesBit(v: bv32)
    ensures WideTimes(0, v) == 0 && WideTimes(1, v) == v
    ensures WideXor(0, v) == v && WideXor(v, 0) == v
  {
  }

  lemma SelectedFactors(x: bv32, x2: bv32, x4: bv32, x8: bv32, x16: bv32)
    ensures Selected(0x09, x, x2, x4, x8, x16) == WideXor(x, x8)
    ensures Selected(0x0b, x, x2, x4, x8, x16) == WideXor(WideXor(x, x2), x8)
    ensures Selected(0x0d, x, x2, x4, x8, x16) == WideXor(WideXor(x, x4), x8)
    ensures Selected(0x0e, x, x2, x4, x8, x16) == WideXor(WideXor(x2, x4), x8)
  {
    hide WideXor, WideTimes;
    TimesBit(x);
    TimesBit(x2);
    TimesBit(x4);
    TimesBit(x8);
    TimesBit(x16);
    TimesBit(WideXor(x, x2));
    TimesBit(WideXor(x, x8));
    TimesBit(WideXor(WideXor(x, x2), x8));
    TimesBit(WideXor(WideXor(x, x4), x8));
    TimesBit(WideXor(WideXor(x2, x4), x8));
  }

  lemma SumReversed(a: byte, b: byte, c: byte)
    ensures Xor(Xor(a, b), c) == Xor(Xor(c, b), a)
  {
  }

  lemma MultiplyBy9(x: byte)
    ensures Store(WideMultiply(x as bv32, 0x09)) == Product(x, 0x09)
  {
    var w := x as bv32;
    var x2, x4, x8 := WideXtime(w), WideXtime(WideXtime(w)), WideXtime(WideXtime(WideXtime(w)));
    ProductBy9(x);
    TriplyDoubled(x);
    SelectedFactors(w, x2, x4, x8, WideXtime(x8));
    StoredSum(w, x8);
    XorCommutes(x, Eightfold(x));
    hide WideXtime, Selected, WideXor, Store, Product, Xor, Double;
  }

  lemma MultiplyByB(x: byte)
    ensures Store(WideMultiply(x as bv32, 0x0b)) == Product(x, 0x0b)
  {
    var w := x as bv32;
    var x2, x4, x8 := WideXtime(w), WideXtime(WideXtime(w)), WideXtime(WideXtime(WideXtime(w)));
    ProductByB(x);
    TriplyDoubled(x);
    SelectedFactors(w, x2, x4, x8, WideXtime(x8));
    StoredSum(w, x2);
    StoredSum(WideXor(w, x2), x8);
    SumReversed(x, Double(x), Eightfold(x));
    hide WideXtime, Selected, WideXor, Store, Product, Xor, Double;
  }

  lemma MultiplyByD(x: byte)
    ensures Store(WideMultiply(x as bv32, 0x0d)) == Product(x, 0x0d)
  {
    var w := x as bv32;
    var x2, x4, x8 := WideXtime(w), WideXtime(WideXtime(w)), WideXtime(WideXtime(WideXtime(w)));
    ProductByD(x);
    TriplyDoubled(x);
    SelectedFactors(w, x2, x4, x8, WideXtime(x8));
    StoredSum(w, x4);
    StoredSum(WideXor(w, x4), x8);
    SumReversed(x, Double(Double(x)), Eightfold(x));
    hide WideXtime, Selected, WideXor, Store, Product, Xor, Double;
  }

  lemma MultiplyByE(x: byte)
    ensures Store(WideMultiply(x as bv32, 0x0e)) == Product(x, 0x0e)
  {
    var w := x as bv32;
    var x2, x4, x8 := WideXtime(w), WideXtime(WideXtime(w)), WideXtime(WideXtime(WideXtime(w)));
    ProductByE(x);
    TriplyDoubled(x);
    SelectedFactors(w, x2, x4, x8, WideXtime(x8));
    StoredSum(x2, x4);
    StoredSum(WideXor(x2, x4), x8);
    SumReversed(Double(x), Double(Double(x)), Eightfold(x));
    hide WideXtime, Selected, WideXor, Store, Product, Xor, Double;
  }

  // ----- the field product distributes over the sum -----

  function Has(p: bv16, top: bv16): bool { p & top != 0 }

  lemma AddAssociates(a: bv16, b: bv16, c: bv16)
    ensures Add(Add(a, b), c) == Add(a, Add(b, c))
  {
    assert (a ^ b) ^ c == a ^ (b ^ c);
  }

  lemma AddCommutes(a: bv16, b: bv16)
    ensures Add(a, b) == Add(b, a)
  {
    assert a ^ b == b ^ a;
  }

  lemma AddZero(a: bv16)
    ensures Add(a, 0) == a && Add(a, a) == 0
  {
  }

  lemma RegroupTerms(a: bv16, b: bv16, c: bv16, d: bv16)
    ensures Add(Add(a, b), Add(c, d)) == Add(Add(a, c), Add(b, d))
  {
    hide Add;
    AddAssociates(a, b, Add(c, d));
    AddAssociates(b, c, d);
    AddCommutes(b, c);
    AddAssociates(c, b, d);
    AddAssociates(a, c, Add(b, d));
  }

  lemma TermOfSum(b: bool, p: bv16, q: bv16)
    ensures Term(b, Add(p, q)) == Add(Term(b, p), Term(b, q))
  {
  }

  lemma ShiftOfSum(p: bv16, q: bv16)
    ensures Add(p, q) << 1 == Add(p << 1, q << 1)
  {
  }

  lemma HornerOfSum(b: bool, p: bv16, q: bv16, r: bv16, s: bv16)
    ensures Horner(b, Add(p, q), Add(r, s)) == Add(Horner(b, p, r), Horner(b, q, s))
  {
    hide Add, Term;
    TermOfSum(b, p, q);
    ShiftOfSum(r, s);
    RegroupTerms(Term(b, p), Term(b, q), r << 1, s << 1);
  }

  lemma CarrylessOfSum(p: bv16, q: bv16, k: byte)
    ensures Carryless(Add(p, q), k) == Add(Carryless(p, k), Carryless(q, k))
  {
    hide Add, Horner;
    var p7, q7 := Horner(k & 0x80 != 0, p, 0), Horner(k & 0x80 != 0, q, 0);
    var p6, q6 := Horner(k & 0x40 != 0, p, p7), Horner(k & 0x40 != 0, q, q7);
    var p5, q5 := Horner(k & 0x20 != 0, p, p6), Horner(k & 0x20 != 0, q, q6);
    var p4, q4 := Horner(k & 0x10 != 0, p, p5), Horner(k & 0x10 != 0, q, q5);
    var p3, q3 := Horner(k & 0x08 != 0, p, p4), Horner(k & 0x08 != 0, q, q4);
    var p2, q2 := Horner(k & 0x04 != 0, p, p3), Horner(k & 0x04 != 0, q, q3);
    var p1, q1 := Horner(k & 0x02 != 0, p, p2), Horner(k & 0x02 != 0, q, q2);
    AddZero(0);
    HornerOfSum(k & 0x80 != 0, p, q, 0, 0);
    HornerOfSum(k & 0x40 != 0, p, q, p7, q7);
    HornerOfSum(k & 0x20 != 0, p, q, p6, q6);
    HornerOfSum(k & 0x10 != 0, p, q, p5, q5);
    HornerOfSum(k & 0x08 != 0, p, q, p4, q4);
    HornerOfSum(k & 0x04 != 0, p, q, p3, q3);
    HornerOfSum(k & 0x02 != 0, p, q, p2, q2);
    HornerOfSum(k & 0x01 != 0, p, q, p1, q1);
  }

  lemma ClearAdds(p: bv16, top: bv16, m: bv16)
    ensures Clear(p, top, m) == if Has(p, top) then Add(p, m) else p
  {
  }

  lemma ClearOfSum(p: bv16, q: bv16, top: bv16, m: bv16)
    requires IsTop(top)
    ensures Clear(Add(p, q), top, m) == Add(Clear(p, top, m), Clear(q, top, m))
  {
    SumOfModuli(p, q, m);
    TopOfSum(p, q, top);
    ClearAdds(p, top, m);
    ClearAdds(q, top, m);
    ClearAdds(Add(p, q), top, m);
    hide Add, Has, Clear;
  }

  lemma SumOfModuli(p: bv16, q: bv16, m: bv16)
    ensures Add(Add(p, m), Add(q, m)) == Add(p, q)
    ensures Add(Add(p, q), m) == Add(Add(p, m), q) == Add(p, Add(q, m))
  {
    hide Add;
    RegroupTerms(p, m, q, m);
    AddZero(m);
    AddZero(Add(p, q));
    AddAssociates(p, q, m);
    AddCommutes(q, m);
    AddAssociates(p, m, q);
  }

  predicate IsTop(t: bv16) {
    t == 0x4000 || t == 0x2000 || t == 0x1000 || t == 0x0800 || t == 0x0400 || t == 0x0200 || t == 0x0100
  }

  lemma TopOfSum(p: bv16, q: bv16, top: bv16)
    requires IsTop(top)
    ensures Has(Add(p, q), top) == (Has(p, top) != Has(q, top))
  {
  }

  lemma LowByteOfSum(p: bv16, q: bv16)
    ensures LowByte(Add(p, q)) == Xor(LowByte(p), LowByte(q))
  {
  }

  lemma ReduceOfSum(p: bv16, q: bv16)
    ensures Reduce(Add(p, q)) == Xor(Reduce(p), Reduce(q))
  {
    hide Add, Clear, Has, LowByte, Xor;
    var p14, q14 := Clear(p, 0x4000, 0x46C0), Clear(q, 0x4000, 0x46C0);
    var p13, q13 := Clear(p14, 0x2000, 0x2360), Clear(q14, 0x2000, 0x2360);
    var p12, q12 := Clear(p13, 0x1000, 0x11B0), Clear(q13, 0x1000, 0x11B0);
    var p11, q11 := Clear(p12, 0x0800, 0x08D8), Clear(q12, 0x0800, 0x08D8);
    var p10, q10 := Clear(p11, 0x0400, 0x046C), Clear(q11, 0x0400, 0x046C);
    var p9, q9 := Clear(p10, 0x0200, 0x0236), Clear(q10, 0x0200, 0x0236);
    var p8, q8 := Clear(p9, 0x0100, 0x011B), Clear(q9, 0x0100, 0x011B);
    ClearOfSum(p, q, 0x4000, 0x46C0);
    ClearOfSum(p14, q14, 0x2000, 0x2360);
    ClearOfSum(p13, q13, 0x1000, 0x11B0);
    ClearOfSum(p12, q12, 0x0800, 0x08D8);
    ClearOfSum(p11, q11, 0x0400, 0x046C);
    ClearOfSum(p10, q10, 0x0200, 0x0236);
    ClearOfSum(p9, q9, 0x0100, 0x011B);
    LowByteOfSum(p8, q8);
  }

  lemma WidenedSum(a: byte, b: byte)
    ensures Xor(a, b) as bv16 == Add(a as bv16, b as bv16)
  {
  }

  /** The product with any byte distributes over the sum. */
  lemma ProductIsLinear(a: byte, b: byte, k: byte)
    ensures Product(Xor(a, b), k) == Xor(Product(a, k), Product(b, k))
  {
    hide Xor, Add, Carryless, Reduce;
    WidenedSum(a, b);
    CarrylessOfSum(a as bv16, b as bv16, k);
    ReduceOfSum(Carryless(a as bv16, k), Carryless(b as bv16, k));
  }

  lemma ProductOfSum(a: byte, b: byte, c: byte, d: byte, k: byte)
    ensures Product(Sum4(a, b, c, d), k) == Sum4(Product(a, k), Product(b, k), Product(c, k), Product(d, k))
  {
    hide Product, Xor;
    ProductIsLinear(Xor(a, b), Xor(c, d), k);
    ProductIsLinear(a, b, k);
    ProductIsLinear(c, d, k);
  }

  // ----- the substitution tables -----

  /** The entry of a table row that the low half-byte selects. */
  function Pick(x: byte, v0: byte, v1: byte, v2: byte, v3: byte, v4: byte, v5: byte, v6: byte, v7: byte,
                v8: byte, v9: byte, va: byte, vb: byte, vc: byte, vd: byte, ve: byte, vf: byte): byte {
    if x & 8 == 0 then
      if x & 4 == 0 then (if x & 2 == 0 then (if x & 1 == 0 then v0 else v1) else (if x & 1 == 0 then v2 else v3))
      else (if x & 2 == 0 then (if x & 1 == 0 then v4 else v5) else (if x & 1 == 0 then v6 else v7))
    else
      if x & 4 == 0 then (if x & 2 == 0 then (if x & 1 == 0 then v8 else v9) else (if x & 1 == 0 then va else vb))
      else (if x & 2 == 0 then (if x & 1 == 0 then vc else vd) else (if x & 1 == 0 then ve else vf))
  }

  /** `getSBoxValue` */
  function SBox(x: byte): byte { if x < 0x80 then SBoxLow(x) else SBoxHigh(x) }

  function SBoxLow(x: byte): byte {
    if x < 0x10 then Pick(x, 0x63, 0x7c, 0x77, 0x7b, 0xf2, 0x6b, 0x6f, 0xc5, 0x30, 0x01, 0x67, 0x2b, 0xfe, 0xd7, 0xab, 0x76)
    else if x < 0x20 then Pick(x, 0xca, 0x82, 0xc9, 0x7d, 0xfa, 0x59, 0x47, 0xf0, 0xad, 0xd4, 0xa2, 0xaf, 0x9c, 0xa4, 0x72, 0xc0)
    else if x < 0x30 then Pick(x, 0xb7, 0xfd, 0x93, 0x26, 0x36, 0x3f, 0xf7, 0xcc, 0x34, 0xa5, 0xe5, 0xf1, 0x71, 0xd8, 0x31, 0x15)
    else if x < 0x40 then Pick(x, 0x04, 0xc7, 0x23, 0xc3, 0x18, 0x96, 0x05, 0x9a, 0x07, 0x12, 0x80, 0xe2, 0xeb, 0x27, 0xb2, 0x75)
    else if x < 0x50 then Pick(x, 0x09, 0x83, 0x2c, 0x1a, 0x1b, 0x6e, 0x5a, 0xa0, 0x52, 0x3b, 0xd6, 0xb3, 0x29, 0xe3, 0x2f, 0x84)
    else if x < 0x60 then Pick(x, 0x53, 0xd1, 0x00, 0xed, 0x20, 0xfc, 0xb1, 0x5b, 0x6a, 0xcb, 0xbe, 0x39, 0x4a, 0x4c, 0x58, 0xcf)
    else if x < 0x70 then Pick(x, 0xd0, 0xef, 0xaa, 0xfb, 0x43, 0x4d, 0x33, 0x85, 0x45, 0xf9, 0x02, 0x7f, 0x50, 0x3c, 0x9f, 0xa8)
    else Pick(x, 0x51, 0xa3, 0x40, 0x8f, 0x92, 0x9d, 0x38, 0xf5, 0xbc, 0xb6, 0xda, 0x21, 0x10, 0xff, 0xf3, 0xd2)
  }

  function SBoxHigh(x: byte): byte {
    if x < 0x90 then Pick(x, 0xcd, 0x0c, 0x13, 0xec, 0x5f, 0x97, 0x44, 0x17, 0xc4, 0xa7, 0x7e, 0x3d, 0x64, 0x5d, 0x19, 0x73)
    else if x < 0xa0 then Pick(x, 0x60, 0x81, 0x4f, 0xdc, 0x22, 0x2a, 0x90, 0x88, 0x46, 0xee, 0xb8, 0x14, 0xde, 0x5e, 0x0b, 0xdb)
    else if x < 0xb0 then Pick(x, 0xe0, 0x32, 0x3a, 0x0a, 0x49, 0x06, 0x24, 0x5c, 0xc2, 0xd3, 0xac, 0x62, 0x91, 0x95, 0xe4, 0x79)
    else if x < 0xc0 then Pick(x, 0xe7, 0xc8, 0x37, 0x6d, 0x8d, 0xd5, 0x4e, 0xa9, 0x6c, 0x56, 0xf4, 0xea, 0x65, 0x7a, 0xae, 0x08)
    else if x < 0xd0 then Pick(x, 0xba, 0x78, 0x25, 0x2e, 0x1c, 0xa6, 0xb4, 0xc6, 0xe8, 0xdd, 0x74, 0x1f, 0x4b, 0xbd, 0x8b, 0x8a)
    else if x < 0xe0 then Pick(x, 0x70, 0x3e, 0xb5, 0x66, 0x48, 0x03, 0xf6, 0x0e, 0x61, 0x35, 0x57, 0xb9, 0x86, 0xc1, 0x1d, 0x9e)
    else if x < 0xf0 then Pick(x, 0xe1, 0xf8, 0x98, 0x11, 0x69, 0xd9, 0x8e, 0x94, 0x9b, 0x1e, 0x87, 0xe9, 0xce, 0x55, 0x28, 0xdf)
    else Pick(x, 0x8c, 0xa1, 0x89, 0x0d, 0xbf, 0xe6, 0x42, 0x68, 0x41, 0x99, 0x2d, 0x0f, 0xb0, 0x54, 0xbb, 0x16)
  }

  /** `getSBoxInvert` */
  function InvSBox(x: byte): byte { if x < 0x80 then InvSBoxLow(x) else InvSBoxHigh(x) }

  function InvSBoxLow(x: byte): byte {
    if x < 0x10 then Pick(x, 0x52, 0x09, 0x6a, 0xd5, 0x30, 0x36, 0xa5, 0x38, 0xbf, 0x40, 0xa3, 0x9e, 0x81, 0xf3, 0xd7, 0xfb)
    else if x < 0x20 then Pick(x, 0x7c, 0xe3, 0x39, 0x82, 0x9b, 0x2f, 0xff, 0x87, 0x34, 0x8e, 0x43, 0x44, 0xc4, 0xde, 0xe9, 0xcb)
    else if x < 0x30 then Pick(x, 0x54, 0x7b, 0x94, 0x32, 0xa6, 0xc2, 0x23, 0x3d, 0xee, 0x4c, 0x95, 0x0b, 0x42, 0xfa, 0xc3, 0x4e)
    else if x < 0x40 then Pick(x, 0x08, 0x2e, 0xa1, 0x66, 0x28, 0xd9, 0x24, 0xb2, 0x76, 0x5b, 0xa2, 0x49, 0x6d, 0x8b, 0xd1, 0x25)
    else if x < 0x50 then Pick(x, 0x72, 0xf8, 0xf6, 0x64, 0x86, 0x68, 0x98, 0x16, 0xd4, 0xa4, 0x5c, 0xcc, 0x5d, 0x65, 0xb6, 0x92)
    else if x < 0x60 then Pick(x, 0x6c, 0x70, 0x48, 0x50, 0xfd, 0xed, 0xb9, 0xda, 0x5e, 0x15, 0x46, 0x57, 0xa7, 0x8d, 0x9d, 0x84)
    else if x < 0x70 then Pick(x, 0x90, 0xd8, 0xab, 0x00, 0x8c, 0xbc, 0xd3, 0x0a, 0xf7, 0xe4, 0x58, 0x05, 0xb8, 0xb3, 0x45, 0x06)
    else Pick(x, 0xd0, 0x2c, 0x1e, 0x8f, 0xca, 0x3f, 0x0f, 0x02, 0xc1, 0xaf, 0xbd, 0x03, 0x01, 0x13, 0x8a, 0x6b)
  }

  function InvSBoxHigh(x: byte): byte {
    if x < 0x90 then Pick(x, 0x3a, 0x91, 0x11, 0x41, 0x4f, 0x67, 0xdc, 0xea, 0x97, 0xf2, 0xcf, 0xce, 0xf0, 0xb4, 0xe6, 0x73)
    else if x < 0xa0 then Pick(x, 0x96, 0xac, 0x74, 0x22, 0xe7, 0xad, 0x35, 0x85, 0xe2, 0xf9, 0x37, 0xe8, 0x1c, 0x75, 0xdf, 0x6e)
    else if x < 0xb0 then Pick(x, 0x47, 0xf1, 0x1a, 0x71, 0x1d, 0x29, 0xc5, 0x89, 0x6f, 0xb7, 0x62, 0x0e, 0xaa, 0x18, 0xbe, 0x1b)
    else if x < 0xc0 then Pick(x, 0xfc, 0x56, 0x3e, 0x4b, 0xc6, 0xd2, 0x79, 0x20, 0x9a, 0xdb, 0xc0, 0xfe, 0x78, 0xcd, 0x5a, 0xf4)
    else if x < 0xd0 then Pick(x, 0x1f, 0xdd, 0xa8, 0x33, 0x88, 0x07, 0xc7, 0x31, 0xb1, 0x12, 0x10, 0x59, 0x27, 0x80, 0xec, 0x5f)
    else if x < 0xe0 then Pick(x, 0x60, 0x51, 0x7f, 0xa9, 0x19, 0xb5, 0x4a, 0x0d, 0x2d, 0xe5, 0x7a, 0x9f, 0x93, 0xc9, 0x9c, 0xef)
    else if x < 0xf0 then Pick(x, 0xa0, 0xe0, 0x3b, 0x4d, 0xae, 0x2a, 0xf5, 0xb0, 0xc8, 0xeb, 0xbb, 0x3c, 0x83, 0x53, 0x99, 0x61)
    else Pick(x, 0x17, 0x2b, 0x04, 0x7e, 0xba, 0x77, 0xd6, 0x26, 0xe1, 0x69, 0x14, 0x63, 0x55, 0x21, 0x0c, 0x7d)
  }

  lemma SBoxesAreInverse(x: byte)
    ensures InvSBox(SBox(x)) == x
  {
    if x < 0x80 { LowIsInverse(x); } else { HighIsInverse(x); }
    hide SBoxLow, SBoxHigh, InvSBox;
  }

  lemma LowIsInverse(x: byte)
    requires x < 0x80
    ensures InvSBox(SBoxLow(x)) == x
  {
  }

  lemma HighIsInverse(x: byte)
    requires x >= 0x80
    ensures InvSBox(SBoxHigh(x)) == x
  {
  }

  // The S-box of the standard: inversion in the field, then an affine map over the bits.

  function Rotated(x: byte, n: bv8): byte
    requires n < 8
  {
    (x << n) | (x >> (8 - n))
  }

  function Affine(x: byte): byte {
    x ^ Rotated(x, 1) ^ Rotated(x, 2) ^ Rotated(x, 3) ^ Rotated(x, 4) ^ 0x63
  }

  function InvAffine(x: byte): byte {
    Rotated(x, 1) ^ Rotated(x, 3) ^ Rotated(x, 6) ^ 0x05
  }

  lemma AffineUndone(x: byte)
    ensures Affine(InvAffine(x)) == x
  {
  }

  /** Every table entry is the affine image of the field inverse of its index, and of zero for zero. */
  lemma SBoxInverts(x: byte) returns (inverse: byte)
    ensures SBox(x) == Affine(inverse)
    ensures if x == 0 then inverse == 0 else Product(x, inverse) == 1
  {
    inverse := InvAffine(SBox(x));
    AffineUndone(SBox(x));
    if x == 0 {
      ZeroInverts();
    } else if x < 0x80 {
      LowInverts(x);
    } else {
      HighInverts(x);
    }
    hide SBoxLow, SBoxHigh, Product, InvAffine, Affine;
  }

  lemma ZeroInverts()
    ensures InvAffine(SBox(0)) == 0
  {
  }

  lemma LowInverts(x: byte)
    requires 0 < x < 0x80
    ensures Product(x, InvAffine(SBoxLow(x))) == 1
  {
  }

  lemma HighInverts(x: byte)
    requires x >= 0x80
    ensures Product(x, InvAffine(SBoxHigh(x))) == 1
  {
  }
}
