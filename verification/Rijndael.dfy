/**
 * The block cipher on values: the round steps, their inverses, and the key schedule (FIPS 197, sections 5.1 to
 * 5.3).
 */
module Rijndael {
  import opened Field

  datatype Column = Column(b0: byte, b1: byte, b2: byte, b3: byte)

  datatype State = State(c0: Column, c1: Column, c2: Column, c3: Column)

  // ----- column matrices -----

  function MixRow(a: byte, b: byte, c: byte, d: byte): byte {
    Sum4(Product(a, 0x02), Product(b, 0x03), c, d)
  }

  function InvMixRow(a: byte, b: byte, c: byte, d: byte): byte {
    Sum4(Product(a, 0x0e), Product(b, 0x0b), Product(c, 0x0d), Product(d, 0x09))
  }

  /** The circulant matrix of section 5.1.3. */
  function MixColumn(c: Column): Column {
    Column(MixRow(c.b0, c.b1, c.b2, c.b3), MixRow(c.b1, c.b2, c.b3, c.b0),
           MixRow(c.b2, c.b3, c.b0, c.b1), MixRow(c.b3, c.b0, c.b1, c.b2))
  }

  /** The circulant matrix of section 5.3.3. */
  function InvMixColumn(c: Column): Column {
    Column(InvMixRow(c.b0, c.b1, c.b2, c.b3), InvMixRow(c.b1, c.b2, c.b3, c.b0),
           InvMixRow(c.b2, c.b3, c.b0, c.b1), InvMixRow(c.b3, c.b0, c.b1, c.b2))
  }

  lemma SumTurned(a: byte, b: byte, c: byte, d: byte)
    ensures Sum4(a, b, c, d) == Sum4(d, a, b, c)
  {
    hide Xor;
    Regroup(d, a, b, c);
    Regroup(a, b, c, d);
    XorCommutes(b, d);
    XorCommutes(Xor(a, c), Xor(b, d));
  }

  /** Adding up four rows is adding up four columns. */
  lemma SumsTransposed(p0: byte, p1: byte, p2: byte, p3: byte, q0: byte, q1: byte, q2: byte, q3: byte,
                       r0: byte, r1: byte, r2: byte, r3: byte, s0: byte, s1: byte, s2: byte, s3: byte)
    ensures Sum4(Sum4(p0, p1, p2, p3), Sum4(q0, q1, q2, q3), Sum4(r0, r1, r2, r3), Sum4(s0, s1, s2, s3))
         == Sum4(Sum4(p0, q0, r0, s0), Sum4(p1, q1, r1, s1), Sum4(p2, q2, r2, s2), Sum4(p3, q3, r3, s3))
  {
    hide Xor;
    AddSums(p0, p1, p2, p3, q0, q1, q2, q3);
    AddSums(r0, r1, r2, r3, s0, s1, s2, s3);
    AddSums(Xor(p0, q0), Xor(p1, q1), Xor(p2, q2), Xor(p3, q3), Xor(r0, s0), Xor(r1, s1), Xor(r2, s2), Xor(r3, s3));
  }

  lemma SumOfOne(a: byte)
    ensures Sum4(a, 0, 0, 0) == a
  {
  }

  // The entries of the product of the two matrices, in either order: one, and three zeros.

  // ----- multiples of a byte, as sums of its doublings -----

  function When(b: bool, v: byte): byte { if b then v else 0 }

  /** The sum of the doublings of `x` that the bits of `m` select. */
  function Multiple(m: bv5, x: byte): byte {
    Xor(When(m & 16 != 0, Double(Eightfold(x))),
      Xor(When(m & 8 != 0, Eightfold(x)),
        Xor(When(m & 4 != 0, Double(Double(x))),
          Xor(When(m & 2 != 0, Double(x)), When(m & 1 != 0, x)))))
  }

  lemma WhenSum(b: bool, c: bool, v: byte)
    ensures Xor(When(b, v), When(c, v)) == When(b != c, v)
  {
  }

  lemma BitsOfSum(m: bv5, n: bv5)
    ensures (m ^ n) & 16 != 0 <==> (m & 16 != 0) != (n & 16 != 0)
    ensures (m ^ n) & 8 != 0 <==> (m & 8 != 0) != (n & 8 != 0)
    ensures (m ^ n) & 4 != 0 <==> (m & 4 != 0) != (n & 4 != 0)
    ensures (m ^ n) & 2 != 0 <==> (m & 2 != 0) != (n & 2 != 0)
    ensures (m ^ n) & 1 != 0 <==> (m & 1 != 0) != (n & 1 != 0)
  {
  }

  lemma FiveRegrouped(a: byte, b: byte, c: byte, d: byte, e: byte, a': byte, b': byte, c': byte, d': byte, e': byte)
    ensures Xor(Xor(a, Xor(b, Xor(c, Xor(d, e)))), Xor(a', Xor(b', Xor(c', Xor(d', e')))))
         == Xor(Xor(a, a'), Xor(Xor(b, b'), Xor(Xor(c, c'), Xor(Xor(d, d'), Xor(e, e')))))
  {
    hide Xor;
    Regroup(a, Xor(b, Xor(c, Xor(d, e))), a', Xor(b', Xor(c', Xor(d', e'))));
    Regroup(b, Xor(c, Xor(d, e)), b', Xor(c', Xor(d', e')));
    Regroup(c, Xor(d, e), c', Xor(d', e'));
    Regroup(d, e, d', e');
  }

  lemma MultipleOfSum(m: bv5, n: bv5, x: byte)
    ensures Xor(Multiple(m, x), Multiple(n, x)) == Multiple(m ^ n, x)
  {
    hide Xor, When, Double, Eightfold;
    var x2, x4, x8 := Double(x), Double(Double(x)), Eightfold(x);
    var x16 := Double(x8);
    FiveRegrouped(When(m & 16 != 0, x16), When(m & 8 != 0, x8), When(m & 4 != 0, x4), When(m & 2 != 0, x2), When(m & 1 != 0, x),
                  When(n & 16 != 0, x16), When(n & 8 != 0, x8), When(n & 4 != 0, x4), When(n & 2 != 0, x2), When(n & 1 != 0, x));
    WhenSum(m & 16 != 0, n & 16 != 0, x16);
    WhenSum(m & 8 != 0, n & 8 != 0, x8);
    WhenSum(m & 4 != 0, n & 4 != 0, x4);
    WhenSum(m & 2 != 0, n & 2 != 0, x2);
    WhenSum(m & 1 != 0, n & 1 != 0, x);
    BitsOfSum(m, n);
  }

  lemma DoubleWhen(b: bool, v: byte)
    ensures Double(When(b, v)) == When(b, Double(v))
  {
    assert Double(0) == 0;
  }

  lemma BitsOfShift(m: bv5)
    requires m & 16 == 0
    ensures (m << 1) & 16 != 0 <==> m & 8 != 0
    ensures (m << 1) & 8 != 0 <==> m & 4 != 0
    ensures (m << 1) & 4 != 0 <==> m & 2 != 0
    ensures (m << 1) & 2 != 0 <==> m & 1 != 0
    ensures (m << 1) & 1 == 0
  {
  }

  lemma AddNothing(v: byte)
    ensures Xor(When(false, v), v) == v == Xor(v, When(false, v))
  {
  }

  lemma NothingIsNothing(v: byte, w: byte)
    ensures When(false, v) == When(false, w)
  {
  }

  lemma DoubleOfMultiple(m: bv5, x: byte)
    requires m & 16 == 0
    ensures Double(Multiple(m, x)) == Multiple(m << 1, x)
  {
    hide Xor, When, Double;
    var x2, x4, x8 := Double(x), Double(Double(x)), Eightfold(x);
    var w8, w4, w2, w1 := When(m & 8 != 0, x8), When(m & 4 != 0, x4), When(m & 2 != 0, x2), When(m & 1 != 0, x);
    var rest := Xor(w8, Xor(w4, Xor(w2, w1)));
    NothingIsNothing(Double(x8), rest);
    AddNothing(rest);
    assert Multiple(m, x) == rest;
    DoubleIsLinear(w8, Xor(w4, Xor(w2, w1)));
    DoubleIsLinear(w4, Xor(w2, w1));
    DoubleIsLinear(w2, w1);
    DoubleWhen(m & 8 != 0, x8);
    DoubleWhen(m & 4 != 0, x4);
    DoubleWhen(m & 2 != 0, x2);
    DoubleWhen(m & 1 != 0, x);
    BitsOfShift(m);
    NothingIsNothing(x, Double(w1));
    AddNothing(Double(w1));
  }

  lemma SmallMultiples(x: byte)
    ensures Multiple(0, x) == 0 && Multiple(1, x) == x
  {
  }

  lemma FactorsOfMultiple(m: bv5, x: byte)
    requires m & 28 == 0
    ensures var y := Multiple(m, x);
            && TimesE(y) == Multiple((m << 3) ^ (m << 2) ^ (m << 1), x) && TimesB(y) == Multiple((m << 3) ^ (m << 1) ^ m, x)
            && TimesD(y) == Multiple((m << 3) ^ (m << 2) ^ m, x) && Times9(y) == Multiple((m << 3) ^ m, x)
  {
    hide Xor, Double, Multiple;
    ShiftsFit(m);
    var m2, m4, m8 := m << 1, m << 2, m << 3;
    DoubleOfMultiple(m, x);
    DoubleOfMultiple(m2, x);
    DoubleOfMultiple(m4, x);
    MultipleOfSum(m8, m, x);
    MultipleOfSum(m8, m2, x);
    MultipleOfSum(m8, m4, x);
    MultipleOfSum(m8 ^ m2, m, x);
    MultipleOfSum(m8 ^ m4, m, x);
    MultipleOfSum(m8 ^ m4, m2, x);
  }

  lemma ShiftsFit(m: bv5)
    requires m & 28 == 0
    ensures m & 16 == 0 && (m << 1) & 16 == 0 && (m << 2) & 16 == 0
    ensures (m << 1) << 1 == m << 2 && (m << 2) << 1 == m << 3
  {
  }

  lemma DoubleAndThreefold(m: bv5, x: byte)
    requires m & 16 == 0
    ensures Double(Multiple(m, x)) == Multiple(m << 1, x) && Times3(Multiple(m, x)) == Multiple((m << 1) ^ m, x)
  {
    hide Xor, Double, Multiple;
    DoubleOfMultiple(m, x);
    MultipleOfSum(m << 1, m, x);
  }

  lemma SumOfMultiples(k: bv5, l: bv5, m: bv5, n: bv5, x: byte)
    ensures Sum4(Multiple(k, x), Multiple(l, x), Multiple(m, x), Multiple(n, x)) == Multiple((k ^ l) ^ (m ^ n), x)
  {
    hide Xor, Multiple;
    MultipleOfSum(k, l, x);
    MultipleOfSum(m, n, x);
    MultipleOfSum(k ^ l, m ^ n, x);
  }

  /** The factors of both matrices, and their doubles and triples, as multiples. */
  lemma AllMultiples(x: byte)
    ensures Multiple(1, x) == x && Multiple(0, x) == 0
    ensures Double(x) == Multiple(2, x) && Times3(x) == Multiple(3, x)
    ensures Times9(x) == Multiple(9, x) && TimesB(x) == Multiple(11, x) && TimesD(x) == Multiple(13, x) && TimesE(x) == Multiple(14, x)
  {
    SmallMultiples(x);
    DoubleAndThreefold(1, x);
    FactorsOfMultiple(1, x);
    hide Multiple, Double, Times3, Times9, TimesB, TimesD, TimesE;
  }

  lemma UndoOne(x: byte)
    ensures Sum4(TimesE(Double(x)), TimesB(x), TimesD(x), Times9(Times3(x))) == x
  {
    hide Multiple, Double, Times3, Times9, TimesB, TimesD, TimesE, Sum4;
    AllMultiples(x);
    FactorsOfMultiple(2, x);
    FactorsOfMultiple(3, x);
    SumOfMultiples(28, 11, 13, 27, x);
  }

  lemma UndoZeroNext(x: byte)
    ensures Sum4(TimesE(Times3(x)), TimesB(Double(x)), TimesD(x), Times9(x)) == 0
  {
    hide Multiple, Double, Times3, Times9, TimesB, TimesD, TimesE, Sum4;
    AllMultiples(x);
    FactorsOfMultiple(2, x);
    FactorsOfMultiple(3, x);
    SumOfMultiples(18, 22, 13, 9, x);
  }

  lemma UndoZeroOpposite(x: byte)
    ensures Sum4(TimesE(x), TimesB(Times3(x)), TimesD(Double(x)), Times9(x)) == 0
  {
    hide Multiple, Double, Times3, Times9, TimesB, TimesD, TimesE, Sum4;
    AllMultiples(x);
    FactorsOfMultiple(2, x);
    FactorsOfMultiple(3, x);
    SumOfMultiples(14, 29, 26, 9, x);
  }

  lemma UndoZeroPrevious(x: byte)
    ensures Sum4(TimesE(x), TimesB(x), TimesD(Times3(x)), Times9(Double(x))) == 0
  {
    hide Multiple, Double, Times3, Times9, TimesB, TimesD, TimesE, Sum4;
    AllMultiples(x);
    FactorsOfMultiple(2, x);
    FactorsOfMultiple(3, x);
    SumOfMultiples(14, 11, 23, 18, x);
  }

  lemma RedoOne(x: byte)
    ensures Sum4(Double(TimesE(x)), Times3(Times9(x)), TimesD(x), TimesB(x)) == x
  {
    hide Multiple, Double, Times3, Times9, TimesB, TimesD, TimesE, Sum4;
    AllMultiples(x);
    DoubleAndThreefold(14, x);
    DoubleAndThreefold(9, x);
    SumOfMultiples(28, 27, 13, 11, x);
  }

  lemma RedoZeroNext(x: byte)
    ensures Sum4(Double(TimesB(x)), Times3(TimesE(x)), Times9(x), TimesD(x)) == 0
  {
    hide Multiple, Double, Times3, Times9, TimesB, TimesD, TimesE, Sum4;
    AllMultiples(x);
    DoubleAndThreefold(11, x);
    DoubleAndThreefold(14, x);
    SumOfMultiples(22, 18, 9, 13, x);
  }

  lemma RedoZeroOpposite(x: byte)
    ensures Sum4(Double(TimesD(x)), Times3(TimesB(x)), TimesE(x), Times9(x)) == 0
  {
    hide Multiple, Double, Times3, Times9, TimesB, TimesD, TimesE, Sum4;
    AllMultiples(x);
    DoubleAndThreefold(13, x);
    DoubleAndThreefold(11, x);
    SumOfMultiples(26, 29, 14, 9, x);
  }

  lemma RedoZeroPrevious(x: byte)
    ensures Sum4(Double(Times9(x)), Times3(TimesD(x)), TimesB(x), TimesE(x)) == 0
  {
    hide Multiple, Double, Times3, Times9, TimesB, TimesD, TimesE, Sum4;
    AllMultiples(x);
    DoubleAndThreefold(9, x);
    DoubleAndThreefold(13, x);
    SumOfMultiples(18, 23, 11, 14, x);
  }

  lemma SmallProducts()
    ensures forall x :: Product(x, 0x02) == Double(x)
    ensures forall x :: Product(x, 0x03) == Times3(x)
    ensures forall x :: Product(x, 0x09) == Times9(x)
    ensures forall x :: Product(x, 0x0b) == TimesB(x)
    ensures forall x :: Product(x, 0x0d) == TimesD(x)
    ensures forall x :: Product(x, 0x0e) == TimesE(x)
  {
    hide Product, Double, Times3, Times9, TimesB, TimesD, TimesE;
    forall x ensures Product(x, 0x02) == Double(x) { ProductBy2(x); }
    forall x ensures Product(x, 0x03) == Times3(x) { ProductBy3(x); }
    forall x ensures Product(x, 0x09) == Times9(x) { ProductBy9(x); }
    forall x ensures Product(x, 0x0b) == TimesB(x) { ProductByB(x); }
    forall x ensures Product(x, 0x0d) == TimesD(x) { ProductByD(x); }
    forall x ensures Product(x, 0x0e) == TimesE(x) { ProductByE(x); }
  }

  lemma InvMixRowUndoes(a: byte, b: byte, c: byte, d: byte)
    ensures InvMixRow(MixRow(a, b, c, d), MixRow(b, c, d, a), MixRow(c, d, a, b), MixRow(d, a, b, c)) == a
  {
    hide Product, Sum4, Double, Times3, Times9, TimesB, TimesD, TimesE;
    var a2, b2, c2, d2 := Product(a, 0x02), Product(b, 0x02), Product(c, 0x02), Product(d, 0x02);
    var a3, b3, c3, d3 := Product(a, 0x03), Product(b, 0x03), Product(c, 0x03), Product(d, 0x03);
    SumTurned(b2, c3, d, a);
    SumTurned(c2, d3, a, b); SumTurned(b, c2, d3, a);
    SumTurned(d2, a3, b, c); SumTurned(c, d2, a3, b); SumTurned(b, c, d2, a3);
    ProductOfSum(a2, b3, c, d, 0x0e);
    ProductOfSum(a, b2, c3, d, 0x0b);
    ProductOfSum(a, b, c2, d3, 0x0d);
    ProductOfSum(a3, b, c, d2, 0x09);
    SmallProducts();
    SumsTransposed(TimesE(Double(a)), TimesE(Times3(b)), TimesE(c), TimesE(d),
                   TimesB(a), TimesB(Double(b)), TimesB(Times3(c)), TimesB(d),
                   TimesD(a), TimesD(b), TimesD(Double(c)), TimesD(Times3(d)),
                   Times9(Times3(a)), Times9(b), Times9(c), Times9(Double(d)));
    UndoOne(a); UndoZeroNext(b); UndoZeroOpposite(c); UndoZeroPrevious(d);
    SumOfOne(a);
  }

  lemma MixRowUndoes(a: byte, b: byte, c: byte, d: byte)
    ensures MixRow(InvMixRow(a, b, c, d), InvMixRow(b, c, d, a), InvMixRow(c, d, a, b), InvMixRow(d, a, b, c)) == a
  {
    hide Product, Sum4, Double, Times3, Times9, TimesB, TimesD, TimesE;
    SmallProducts();
    SumTurned(TimesE(b), TimesB(c), TimesD(d), Times9(a));
    SumTurned(TimesE(c), TimesB(d), TimesD(a), Times9(b)); SumTurned(Times9(b), TimesE(c), TimesB(d), TimesD(a));
    SumTurned(TimesE(d), TimesB(a), TimesD(b), Times9(c)); SumTurned(Times9(c), TimesE(d), TimesB(a), TimesD(b));
    SumTurned(TimesD(b), Times9(c), TimesE(d), TimesB(a));
    ProductOfSum(TimesE(a), TimesB(b), TimesD(c), Times9(d), 0x02);
    ProductOfSum(Times9(a), TimesE(b), TimesB(c), TimesD(d), 0x03);
    SumsTransposed(Double(TimesE(a)), Double(TimesB(b)), Double(TimesD(c)), Double(Times9(d)),
                   Times3(Times9(a)), Times3(TimesE(b)), Times3(TimesB(c)), Times3(TimesD(d)),
                   TimesD(a), Times9(b), TimesE(c), TimesB(d),
                   TimesB(a), TimesD(b), Times9(c), TimesE(d));
    RedoOne(a); RedoZeroNext(b); RedoZeroOpposite(c); RedoZeroPrevious(d);
    SumOfOne(a);
  }

  /** The two column steps undo each other. */
  lemma MixColumnsInverse(c: Column)
    ensures InvMixColumn(MixColumn(c)) == c && MixColumn(InvMixColumn(c)) == c
  {
    hide MixRow, InvMixRow;
    InvMixRowUndoes(c.b0, c.b1, c.b2, c.b3);
    InvMixRowUndoes(c.b1, c.b2, c.b3, c.b0);
    InvMixRowUndoes(c.b2, c.b3, c.b0, c.b1);
    InvMixRowUndoes(c.b3, c.b0, c.b1, c.b2);
    MixRowUndoes(c.b0, c.b1, c.b2, c.b3);
    MixRowUndoes(c.b1, c.b2, c.b3, c.b0);
    MixRowUndoes(c.b2, c.b3, c.b0, c.b1);
    MixRowUndoes(c.b3, c.b0, c.b1, c.b2);
  }

  // ----- the steps of a round -----

  function MapColumn(f: byte -> byte, c: Column): Column { Column(f(c.b0), f(c.b1), f(c.b2), f(c.b3)) }

  function SubBytes(s: State): State {
    State(MapColumn(SBox, s.c0), MapColumn(SBox, s.c1), MapColumn(SBox, s.c2), MapColumn(SBox, s.c3))
  }

  function InvSubBytes(s: State): State {
    State(MapColumn(InvSBox, s.c0), MapColumn(InvSBox, s.c1), MapColumn(InvSBox, s.c2), MapColumn(InvSBox, s.c3))
  }

  /** Row r moves r places to the left. */
  function ShiftRows(s: State): State {
    State(Column(s.c0.b0, s.c1.b1, s.c2.b2, s.c3.b3), Column(s.c1.b0, s.c2.b1, s.c3.b2, s.c0.b3),
          Column(s.c2.b0, s.c3.b1, s.c0.b2, s.c1.b3), Column(s.c3.b0, s.c0.b1, s.c1.b2, s.c2.b3))
  }

  /** Row r moves r places to the right. */
  function InvShiftRows(s: State): State {
    State(Column(s.c0.b0, s.c3.b1, s.c2.b2, s.c1.b3), Column(s.c1.b0, s.c0.b1, s.c3.b2, s.c2.b3),
          Column(s.c2.b0, s.c1.b1, s.c0.b2, s.c3.b3), Column(s.c3.b0, s.c2.b1, s.c1.b2, s.c0.b3))
  }

  function MixColumns(s: State): State { State(MixColumn(s.c0), MixColumn(s.c1), MixColumn(s.c2), MixColumn(s.c3)) }

  function InvMixColumns(s: State): State {
    State(InvMixColumn(s.c0), InvMixColumn(s.c1), InvMixColumn(s.c2), InvMixColumn(s.c3))
  }

  function AddColumn(c: Column, k: Column): Column {
    Column(c.b0 ^ k.b0, c.b1 ^ k.b1, c.b2 ^ k.b2, c.b3 ^ k.b3)
  }

  function AddKey(s: State, k: State): State {
    State(AddColumn(s.c0, k.c0), AddColumn(s.c1, k.c1), AddColumn(s.c2, k.c2), AddColumn(s.c3, k.c3))
  }

  lemma AddColumnTwice(c: Column, k: Column)
    ensures AddColumn(AddColumn(c, k), k) == c
  {
  }

  lemma AddKeyTwice(s: State, k: State)
    ensures AddKey(AddKey(s, k), k) == s
  {
    hide AddColumn;
    AddColumnTwice(s.c0, k.c0);
    AddColumnTwice(s.c1, k.c1);
    AddColumnTwice(s.c2, k.c2);
    AddColumnTwice(s.c3, k.c3);
  }

  lemma ColumnSubstituted(c: Column)
    ensures MapColumn(InvSBox, MapColumn(SBox, c)) == c
  {
    hide SBox, InvSBox;
    SBoxesAreInverse(c.b0);
    SBoxesAreInverse(c.b1);
    SBoxesAreInverse(c.b2);
    SBoxesAreInverse(c.b3);
  }

  /** The half-round before the column step, and its undoing. */
  function Scramble(s: State): State { ShiftRows(SubBytes(s)) }

  function Unscramble(s: State): State { InvSubBytes(InvShiftRows(s)) }

  lemma Unscrambled(s: State)
    ensures Unscramble(Scramble(s)) == s
  {
    hide SBox, InvSBox, MapColumn;
    ColumnSubstituted(s.c0);
    ColumnSubstituted(s.c1);
    ColumnSubstituted(s.c2);
    ColumnSubstituted(s.c3);
    assert InvShiftRows(ShiftRows(SubBytes(s))) == SubBytes(s);
  }

  lemma MixedBack(s: State)
    ensures InvMixColumns(MixColumns(s)) == s
  {
    hide MixColumn, InvMixColumn;
    MixColumnsInverse(s.c0);
    MixColumnsInverse(s.c1);
    MixColumnsInverse(s.c2);
    MixColumnsInverse(s.c3);
  }

  // ----- the cipher, for any sequence of round keys -----

  /** The state after the full rounds 1 to `n`. */
  function Rounds(s: State, keys: seq<State>, n: nat): State
    requires n < |keys|
  {
    if n == 0 then s else AddKey(MixColumns(Scramble(Rounds(s, keys, n - 1))), keys[n])
  }

  /** The inverse rounds `n` down to 1. */
  function InvRounds(s: State, keys: seq<State>, n: nat): State
    requires n < |keys|
    decreases n
  {
    if n == 0 then s else InvRounds(InvMixColumns(AddKey(Unscramble(s), keys[n])), keys, n - 1)
  }

  lemma RoundsStep(s: State, keys: seq<State>, n: nat)
    requires n < |keys|
    ensures n == 0 ==> Rounds(s, keys, n) == s
    ensures n > 0 ==> Rounds(s, keys, n) == AddKey(MixColumns(Scramble(Rounds(s, keys, n - 1))), keys[n])
  {
  }

  lemma InvRoundsStep(s: State, keys: seq<State>, n: nat)
    requires n < |keys|
    ensures n == 0 ==> InvRounds(s, keys, n) == s
    ensures n > 0 ==> InvRounds(s, keys, n) == InvRounds(InvMixColumns(AddKey(Unscramble(s), keys[n])), keys, n - 1)
  {
  }

  function Encipher(s: State, keys: seq<State>): State
    requires |keys| >= 2
  {
    AddKey(Scramble(Rounds(AddKey(s, keys[0]), keys, |keys| - 2)), keys[|keys| - 1])
  }

  function Decipher(s: State, keys: seq<State>): State
    requires |keys| >= 2
  {
    AddKey(Unscramble(InvRounds(AddKey(s, keys[|keys| - 1]), keys, |keys| - 2)), keys[0])
  }

  lemma {:induction false} RoundsUndone(s: State, keys: seq<State>, n: nat)
    requires n < |keys|
    ensures InvRounds(Scramble(Rounds(s, keys, n)), keys, n) == Scramble(s)
  {
    hide Scramble, Unscramble, AddKey, MixColumns, InvMixColumns;
    if n > 0 {
      var before := Scramble(Rounds(s, keys, n - 1));
      Unscrambled(Rounds(s, keys, n));
      AddKeyTwice(MixColumns(before), keys[n]);
      MixedBack(before);
      RoundsUndone(s, keys, n - 1);
    }
  }

  /** Deciphering undoes enciphering: any block, any round keys, any number of rounds. */
  lemma DecipherUndoesEncipher(s: State, keys: seq<State>)
    requires |keys| >= 2
    ensures Decipher(Encipher(s, keys), keys) == s
  {
    hide Scramble, Unscramble, AddKey;
    var n := |keys| - 2;
    var start := AddKey(s, keys[0]);
    AddKeyTwice(Scramble(Rounds(start, keys, n)), keys[n + 1]);
    RoundsUndone(start, keys, n);
    Unscrambled(start);
    AddKeyTwice(s, keys[0]);
  }

  // ----- the key schedule -----

  function SubWord(w: Column): Column { MapColumn(SBox, w) }

  function RotWord(w: Column): Column { Column(w.b1, w.b2, w.b3, w.b0) }

  /** The n-th power of {02}. */
  function Power(n: nat): byte { if n == 0 then 1 else Double(Power(n - 1)) }

  function WordAt(bytes: seq<byte>, i: nat): Column
    requires 4 * i + 3 < |bytes|
  {
    Column(bytes[4 * i], bytes[4 * i + 1], bytes[4 * i + 2], bytes[4 * i + 3])
  }

  /** What word `i` adds to word `i - nk`, from the word before it (section 5.2). */
  function ScheduleStep(before: Column, nk: nat, i: nat): Column
    requires nk > 0 && i / nk >= 1
  {
    if i % nk == 0 then
      var w := SubWord(RotWord(before));
      w.(b0 := Xor(w.b0, Power(i / nk - 1)))
    else if nk > 6 && i % nk == 4 then SubWord(before)
    else before
  }

  function ScheduleWord(key: seq<byte>, nk: nat, i: nat): Column
    requires nk > 0 && |key| >= 4 * nk
  {
    if i < nk then WordAt(key, i)
    else AddColumn(ScheduleWord(key, nk, i - nk), ScheduleStep(ScheduleWord(key, nk, i - 1), nk, i))
  }

  function RoundKey(key: seq<byte>, nk: nat, round: nat): State
    requires nk > 0 && |key| >= 4 * nk
  {
    State(ScheduleWord(key, nk, 4 * round), ScheduleWord(key, nk, 4 * round + 1),
          ScheduleWord(key, nk, 4 * round + 2), ScheduleWord(key, nk, 4 * round + 3))
  }

  function RoundKeys(key: seq<byte>, nk: nat, nr: nat): (keys: seq<State>)
    requires nk > 0 && |key| >= 4 * nk
    ensures |keys| == nr + 1
  {
    seq(nr + 1, (r: nat) => RoundKey(key, nk, r))
  }

  function Load(block: seq<byte>): State
    requires |block| == 16
  {
    State(WordAt(block, 0), WordAt(block, 1), WordAt(block, 2), WordAt(block, 3))
  }

  function ColumnBytes(c: Column): seq<byte> { [c.b0, c.b1, c.b2, c.b3] }

  function Unload(s: State): (block: seq<byte>)
    ensures |block| == 16
  {
    ColumnBytes(s.c0) + ColumnBytes(s.c1) + ColumnBytes(s.c2) + ColumnBytes(s.c3)
  }

  lemma LoadUnload(s: State)
    ensures Load(Unload(s)) == s
  {
  }

  lemma UnloadLoad(block: seq<byte>)
    requires |block| == 16
    ensures Unload(Load(block)) == block
  {
  }

  // ----- where the row steps move a byte; the block is stored column by column -----

  function InColumn(c: Column, r: nat): byte
    requires r < 4
  {
    if r == 0 then c.b0 else if r == 1 then c.b1 else if r == 2 then c.b2 else c.b3
  }

  /** The byte in row `r` of column `c`. */
  function At(s: State, r: nat, c: nat): byte
    requires r < 4 && c < 4
  {
    InColumn(if c == 0 then s.c0 else if c == 1 then s.c1 else if c == 2 then s.c2 else s.c3, r)
  }

  lemma ColumnBytesAt(c: Column, r: nat)
    requires r < 4
    ensures |ColumnBytes(c)| == 4 && ColumnBytes(c)[r] == InColumn(c, r)
  {
  }

  lemma UnloadAt(s: State, r: nat, c: nat)
    requires r < 4 && c < 4
    ensures Unload(s)[4 * c + r] == At(s, r, c)
  {
    ColumnBytesAt(s.c0, r);
    ColumnBytesAt(s.c1, r);
    ColumnBytesAt(s.c2, r);
    ColumnBytesAt(s.c3, r);
    hide ColumnBytes, InColumn;
  }

  lemma LoadAt(block: seq<byte>, r: nat, c: nat)
    requires |block| == 16 && r < 4 && c < 4
    ensures At(Load(block), r, c) == block[4 * c + r]
  {
    UnloadLoad(block);
    UnloadAt(Load(block), r, c);
    hide Load, Unload, At;
  }

  lemma ShiftedAt(s: State, r: nat, c: nat)
    requires r < 4 && c < 4
    ensures At(ShiftRows(s), r, c) == At(s, r, (c + r) % 4)
  {
    if c == 0 {} else if c == 1 {} else if c == 2 {} else {}
  }

  lemma InvShiftedAt(s: State, r: nat, c: nat)
    requires r < 4 && c < 4
    ensures At(InvShiftRows(s), r, c) == At(s, r, (c + 4 - r) % 4)
  {
    if c == 0 {} else if c == 1 {} else if c == 2 {} else {}
  }

  /** Row r is rotated r places to the left (section 5.1.2). */
  lemma ShiftRowsMoves(block: seq<byte>, r: nat, c: nat)
    requires |block| == 16 && r < 4 && c < 4
    ensures Unload(ShiftRows(Load(block)))[4 * c + r] == block[4 * ((c + r) % 4) + r]
  {
    hide Load, Unload, At, ShiftRows;
    UnloadAt(ShiftRows(Load(block)), r, c);
    ShiftedAt(Load(block), r, c);
    LoadAt(block, r, (c + r) % 4);
  }

  /** And to the right (section 5.3.1). */
  lemma InvShiftRowsMoves(block: seq<byte>, r: nat, c: nat)
    requires |block| == 16 && r < 4 && c < 4
    ensures Unload(InvShiftRows(Load(block)))[4 * c + r] == block[4 * ((c + 4 - r) % 4) + r]
  {
    hide Load, Unload, At, InvShiftRows;
    UnloadAt(InvShiftRows(Load(block)), r, c);
    InvShiftedAt(Load(block), r, c);
    LoadAt(block, r, (c + 4 - r) % 4);
  }

  // ----- one block under a key of `nk` words -----

  function EncryptBlock(key: seq<byte>, nk: nat, block: seq<byte>): (r: seq<byte>)
    requires 0 < nk && |key| >= 4 * nk && |block| == 16
    ensures |r| == 16
  {
    Unload(Encipher(Load(block), RoundKeys(key, nk, nk + 6)))
  }

  function DecryptBlock(key: seq<byte>, nk: nat, block: seq<byte>): (r: seq<byte>)
    requires 0 < nk && |key| >= 4 * nk && |block| == 16
    ensures |r| == 16
  {
    Unload(Decipher(Load(block), RoundKeys(key, nk, nk + 6)))
  }

  /** Decrypting with the key undoes encrypting with it, for every key length and every block. */
  lemma DecryptUndoesEncrypt(key: seq<byte>, nk: nat, block: seq<byte>)
    requires 0 < nk && |key| >= 4 * nk && |block| == 16
    ensures DecryptBlock(key, nk, EncryptBlock(key, nk, block)) == block
  {
    hide Load, Unload, Encipher, Decipher, RoundKeys;
    var keys := RoundKeys(key, nk, nk + 6);
    LoadUnload(Encipher(Load(block), keys));
    DecipherUndoesEncipher(Load(block), keys);
    UnloadLoad(block);
  }

  /** Only the first `nk` words of the key buffer matter. */
  lemma {:induction false} ScheduleOfPrefix(key: seq<byte>, other: seq<byte>, nk: nat, i: nat)
    requires 0 < nk && |key| >= 4 * nk && |other| >= 4 * nk && key[..4 * nk] == other[..4 * nk]
    ensures ScheduleWord(key, nk, i) == ScheduleWord(other, nk, i)
  {
    hide ScheduleStep, AddColumn;
    if i < nk {
      assert WordAt(key, i) == WordAt(key[..4 * nk], i) == WordAt(other[..4 * nk], i) == WordAt(other, i);
    } else {
      ScheduleOfPrefix(key, other, nk, i - nk);
      ScheduleOfPrefix(key, other, nk, i - 1);
    }
  }

  lemma RoundKeysOfPrefix(key: seq<byte>, other: seq<byte>, nk: nat, nr: nat)
    requires 0 < nk && |key| >= 4 * nk && |other| >= 4 * nk && key[..4 * nk] == other[..4 * nk]
    ensures RoundKeys(key, nk, nr) == RoundKeys(other, nk, nr)
  {
    hide ScheduleWord;
    forall r: nat ensures RoundKey(key, nk, r) == RoundKey(other, nk, r) {
      ScheduleOfPrefix(key, other, nk, 4 * r);
      ScheduleOfPrefix(key, other, nk, 4 * r + 1);
      ScheduleOfPrefix(key, other, nk, 4 * r + 2);
      ScheduleOfPrefix(key, other, nk, 4 * r + 3);
    }
  }
}
