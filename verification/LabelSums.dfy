/** The checksums that seal a disk label: exclusive-or of 16-bit words (Sun), negated sum of 32-bit words (SGI). */
module LabelSums {
  import opened MachineInt

  // ----- Sun -----

  function Xor(a: bv16, b: bv16): bv16 { a ^ b }

  lemma XorAssociates(a: bv16, b: bv16, c: bv16)
    ensures Xor(Xor(a, b), c) == Xor(a, Xor(b, c))
  {
    assert (a ^ b) ^ c == a ^ (b ^ c);
  }

  lemma XorCommutes(a: bv16, b: bv16)
    ensures Xor(a, b) == Xor(b, a)
  {
    assert a ^ b == b ^ a;
  }

  lemma XorZero(a: bv16)
    ensures Xor(a, 0) == a && Xor(0, a) == a
  {
    assert a ^ 0 == a && 0 ^ a == a;
  }

  lemma XorVanishes(a: bv16, b: bv16)
    ensures Xor(a, b) == 0 <==> a == b
  {
    assert a ^ b == 0 <==> a == b;
  }

  /** The words folded from the front. */
  function XorAll(s: seq<bv16>): bv16 { if s == [] then 0 else Xor(XorAll(s[..|s| - 1]), s[|s| - 1]) }

  lemma {:induction false} XorFromFront(a: bv16, s: seq<bv16>)
    ensures XorAll([a] + s) == Xor(a, XorAll(s))
  {
    hide Xor;
    XorZero(a);
    if s == [] {
      assert ([a] + s)[..0] == [];
    } else {
      var t := s[..|s| - 1];
      assert ([a] + s)[..|s|] == [a] + t;
      XorFromFront(a, t);
      XorAssociates(a, XorAll(t), s[|s| - 1]);
    }
  }

  /** The checksum of a row of words is that of its parts, and a word's is the word itself. */
  lemma {:induction false} XorOfConcat(a: seq<bv16>, b: seq<bv16>)
    ensures XorAll(a + b) == Xor(XorAll(a), XorAll(b))
    decreases |b|
  {
    hide Xor;
    if b == [] {
      assert a + b == a;
      XorZero(XorAll(a));
    } else {
      var n := |b| - 1;
      assert (a + b)[..|a| + n] == a + b[..n];
      XorOfConcat(a, b[..n]);
      XorAssociates(XorAll(a), XorAll(b[..n]), b[n]);
    }
  }

  lemma XorOfOne(w: bv16)
    ensures XorAll([w]) == w
  {
    XorFromFront(w, []);
    XorZero(w);
    assert [w] + [] == [w];
    hide Xor;
  }

  /** The loop of `sun_write_table`, over the words in front of the checksum. */
  method SunSum(words: seq<bv16>) returns (csum: bv16)
    requires |words| >= 1
    ensures csum == XorAll(words[..|words| - 1])
  {
    csum := 0;
    var i := 0;
    while i < |words| - 1
      invariant i <= |words| - 1 && csum == XorAll(words[..i])
    {
      assert words[..i + 1][..i] == words[..i];
      csum := Xor(csum, words[i]);
      i := i + 1;
    }
  }

  /** The loop of `check_sun_label`, which runs from the last word to the first. */
  method SunCheck(words: seq<bv16>) returns (csum: bv16)
    ensures csum == XorAll(words)
  {
    csum := 0;
    var i := |words|;
    hide Xor;
    while i > 0
      invariant 0 <= i <= |words| && csum == XorAll(words[i..])
    {
      i := i - 1;
      assert words[i..] == [words[i]] + words[i + 1..];
      XorFromFront(words[i], words[i + 1..]);
      XorCommutes(csum, words[i]);
      csum := Xor(csum, words[i]);
    }
    assert words[0..] == words;
  }

  /** A label passes the check if and only if its last word is what writing it stores there. */
  lemma SunSealExactlyIf(words: seq<bv16>)
    requires |words| >= 1
    ensures XorAll(words) == 0 <==> words[|words| - 1] == XorAll(words[..|words| - 1])
  {
    XorVanishes(XorAll(words[..|words| - 1]), words[|words| - 1]);
    hide Xor;
  }

  // ----- SGI -----

  /** Four bytes of the label, in the order in which they are stored. */
  datatype Quad = Quad(a: byte, b: byte, c: byte, d: byte)

  /** The word in them, as a machine of the label's byte order reads it, or one of the other order through `SSWAP32`. */
  function Word(q: Quad, other: bool): (w: nat)
    ensures w < TWO32
  {
    if other then Joined(q.d, q.c, q.b, q.a) else Joined(q.a, q.b, q.c, q.d)
  }

  function Joined(a: byte, b: byte, c: byte, d: byte): (w: nat)
    ensures w < TWO32
  {
    a + 0x100 * (b + 0x100 * (c + 0x100 * d))
  }

  function Stored(w: nat, other: bool): Quad
    requires w < TWO32
  {
    var v := w / 0x100;
    var u := v / 0x100;
    var (a, b, c, d) := (w % 0x100, v % 0x100, u % 0x100, u / 0x100);
    if other then Quad(d, c, b, a) else Quad(a, b, c, d)
  }

  lemma StoredIsRead(w: nat, other: bool)
    requires w < TWO32
    ensures Word(Stored(w, other), other) == w
  {
  }

  lemma LowByte(a: byte, more: nat)
    ensures (a + 0x100 * more) % 0x100 == a && (a + 0x100 * more) / 0x100 == more
  {
  }

  lemma ReadIsStored(q: Quad, other: bool)
    ensures Stored(Word(q, other), other) == q
  {
    var p := if other then Quad(q.d, q.c, q.b, q.a) else q;
    LowByte(p.c, p.d);
    LowByte(p.b, p.c + 0x100 * p.d);
    LowByte(p.a, p.b + 0x100 * (p.c + 0x100 * p.d));
  }

  /** `two_s_complement_32bit_sum` */
  function NegatedSum(words: seq<Quad>, other: bool): (sum: nat)
    ensures sum < TWO32
  {
    if words == [] then 0 else U32(NegatedSum(words[..|words| - 1], other) - Word(words[|words| - 1], other))
  }

  /** The sum of the words as numbers. */
  function Total(words: seq<Quad>, other: bool): nat {
    if words == [] then 0 else Word(words[0], other) + Total(words[1..], other)
  }

  lemma {:induction false} TotalOfLast(words: seq<Quad>, other: bool)
    requires words != []
    ensures var n := |words| - 1; Total(words, other) == Total(words[..n], other) + Word(words[n], other)
    decreases |words|
  {
    hide Word;
    if |words| > 1 {
      var n := |words| - 1;
      TotalOfLast(words[1..], other);
      assert words[1..][..n - 1] == words[..n][1..];
    }
  }

  /** The sum and its negation vanish together in 32 bits. */
  lemma {:induction false} SumIsNegated(words: seq<Quad>, other: bool)
    ensures NegatedSum(words, other) == U32(0 - Total(words, other))
  {
    hide Word, U32, Total;
    if words == [] {
      assert Total(words, other) == 0 by { EmptyTotal(other); }
      EmptySum(other);
    } else {
      var n := |words| - 1;
      SumOfLast(words, other);
      SumIsNegated(words[..n], other);
      TotalOfLast(words, other);
      WrapSum(0 - Total(words[..n], other), Word(words[n], other));
    }
  }

  lemma EmptyTotal(other: bool)
    ensures Total([], other) == 0
  {
  }

  lemma EmptySum(other: bool)
    ensures NegatedSum([], other) == U32(0)
  {
  }

  method SgiSum(words: seq<Quad>, other: bool) returns (sum: nat)
    ensures sum == NegatedSum(words, other)
  {
    hide Word;
    sum := 0;
    var i := 0;
    while i < |words|
      invariant 0 <= i <= |words| && sum == NegatedSum(words[..i], other)
    {
      assert words[..i + 1][..i] == words[..i];
      sum := U32(sum - Word(words[i], other));
      i := i + 1;
    }
    assert words[..i] == words;
  }

  lemma SwapSubtrahends(s: int, a: int, b: int)
    ensures U32(U32(s - a) - b) == U32(U32(s - b) - a)
  {
    WrapSum(s - a, b);
    WrapSum(s - b, a);
  }

  predicate IsZero(q: Quad) { q.a == q.b == q.c == q.d == 0 }

  lemma SumOfLast(words: seq<Quad>, other: bool)
    requires words != []
    ensures var n := |words| - 1; NegatedSum(words, other) == U32(NegatedSum(words[..n], other) - Word(words[n], other))
  {
  }

  lemma ZeroAddsNothing(sum: nat, q: Quad, other: bool)
    requires sum < TWO32 && IsZero(q)
    ensures U32(sum - Word(q, other)) == sum
  {
  }

  lemma SumWithLast(words: seq<Quad>, other: bool, w: Quad)
    requires words != [] && IsZero(words[|words| - 1])
    ensures NegatedSum(words[|words| - 1 := w], other) == U32(NegatedSum(words, other) - Word(w, other))
  {
    hide *;
    var n := |words| - 1;
    var t := words[n := w];
    assert t[..n] == words[..n];
    SumOfLast(words, other);
    SumOfLast(t, other);
    ZeroAddsNothing(NegatedSum(words[..n], other), words[n], other);
  }

  /** What a word adds to the sum, wherever it stands. */
  lemma {:induction false} SumWithWord(words: seq<Quad>, other: bool, k: nat, w: Quad)
    requires k < |words| && IsZero(words[k])
    ensures NegatedSum(words[k := w], other) == U32(NegatedSum(words, other) - Word(w, other))
  {
    hide Word, NegatedSum, U32;
    var n := |words| - 1;
    if k == n {
      SumWithLast(words, other, w);
    } else {
      assert words[k := w][..n] == words[..n][k := w] && words[k := w][n] == words[n];
      SumOfLast(words, other);
      SumOfLast(words[k := w], other);
      SumWithWord(words[..n], other, k, w);
      SwapSubtrahends(NegatedSum(words[..n], other), Word(w, other), Word(words[n], other));
    }
  }

  /** The label as `sgi_write_table` leaves it, its checksum being word `k`. */
  function Sealed(words: seq<Quad>, other: bool, k: nat): seq<Quad>
    requires k < |words|
  {
    words[k := Stored(NegatedSum(words[k := Quad(0, 0, 0, 0)], other), other)]
  }

  lemma DifferenceVanishes(a: nat, b: nat)
    requires a < TWO32 && b < TWO32
    ensures U32(a - b) == 0 <==> a == b
  {
  }

  /**
   * A label passes the check of `check_sgi_label`, and the assertion of `sgi_write_table`, if and only if
   * its checksum is the one that writing stores, in either byte order.
   */
  lemma SgiSealExactlyIf(words: seq<Quad>, other: bool, k: nat)
    requires k < |words|
    ensures NegatedSum(words, other) == 0 <==> words == Sealed(words, other, k)
    ensures NegatedSum(Sealed(words, other, k), other) == 0
  {
    hide Word, NegatedSum, Stored, U32;
    var zero := words[k := Quad(0, 0, 0, 0)];
    var sum := NegatedSum(zero, other);
    var csum := Stored(sum, other);
    SumWithWord(zero, other, k, words[k]);
    SumWithWord(zero, other, k, csum);
    assert zero[k := words[k]] == words && zero[k := csum] == Sealed(words, other, k);
    StoredIsRead(sum, other);
    ReadIsStored(words[k], other);
    DifferenceVanishes(sum, Word(words[k], other));
    DifferenceVanishes(sum, sum);
    assert words == Sealed(words, other, k) <==> words[k] == csum;
  }
}
