/**
 * The bytes of a file allocation table: packed entries, and the copies written
 * to the device. Masks and shifts of the source are remainders and quotients
 * here; its disjunctions join disjoint bits and are sums.
 */
module FatTable {
  import opened FatLayout
  import opened MachineInt

  /** A value cut to the width of an entry; FAT32 entries have 28 bits. */
  function Cut(w: Width, value: nat): nat {
    match w case F12 => value % 0x1000 case F16 => value % 0x1_0000 case F32 => value % 0x1000_0000
  }

  /** Where a 12-bit entry starts. */
  function FirstByte(k: nat): nat { 3 * k / 2 }

  /** Entries share a byte only as the even and odd half of a pair. */
  lemma EntriesApart(j: nat, k: nat)
    requires j < k
    ensures FirstByte(j) + 1 < FirstByte(k) || (FirstByte(j) + 1 == FirstByte(k) && j % 2 == 0 && k % 2 == 1)
  {
    var a, b := j / 2, k / 2;
    assert FirstByte(j) == 3 * a + j % 2 && FirstByte(k) == 3 * b + k % 2;
  }

  /** Does the table hold entry `k`? */
  predicate Holds(w: Width, length: nat, k: nat) {
    match w
    case F12 => FirstByte(k) + 1 < length
    case F16 => 2 * k + 1 < length
    case F32 => 4 * k + 3 < length
  }

  // Two 12-bit entries take three bytes: the even one ends, and the odd one begins, in the shared byte.

  function ReadEven(first: int, shared: int): int { first + shared % 16 * 0x100 }

  function ReadOdd(shared: int, last: int): int { shared / 16 + last * 0x10 }

  function EvenShare(shared: byte, v: nat): (b: byte)
    requires v < 0x1000
  {
    shared / 16 * 16 + v / 0x100
  }

  function OddShare(shared: byte, v: nat): (b: byte)
    requires v < 0x1000
  {
    shared % 16 + v % 16 * 16
  }

  function Read16(b0: int, b1: int): int { b0 + b1 * 0x100 }

  function Read32(b0: int, b1: int, b2: int, b3: int): int {
    b0 + b1 * 0x100 + b2 * 0x1_0000 + b3 * 0x100_0000
  }

  /** Entry `k` of a table: an even 12-bit entry ends, and the odd one after it begins, in a shared byte. */
  function Entry(w: Width, fat: seq<byte>, k: nat): int
    requires Holds(w, |fat|, k)
  {
    match w
    case F12 =>
      if k % 2 == 0 then ReadEven(fat[FirstByte(k)], fat[FirstByte(k) + 1]) else ReadOdd(fat[FirstByte(k)], fat[FirstByte(k) + 1])
    case F16 => Read16(fat[2 * k], fat[2 * k + 1])
    case F32 => Read32(fat[4 * k], fat[4 * k + 1], fat[4 * k + 2], fat[4 * k + 3])
  }

  // ----- the table as one number, lowest byte first: entry k is its k-th digit -----

  function Number(fat: seq<byte>): nat { if fat == [] then 0 else fat[0] + 0x100 * Number(fat[1..]) }

  /** The lowest digit, to the base of two to the bits of an entry, and the number without it. */
  function LowDigit(w: Width, n: nat): nat {
    match w case F12 => n % 0x1000 case F16 => n % 0x1_0000 case F32 => n % 0x1_0000_0000
  }

  function Shifted(w: Width, n: nat): nat {
    match w case F12 => n / 0x1000 case F16 => n / 0x1_0000 case F32 => n / 0x1_0000_0000
  }

  function Digit(w: Width, n: nat, k: nat): nat
    decreases k
  {
    if k == 0 then LowDigit(w, n) else Digit(w, Shifted(w, n), k - 1)
  }

  lemma NumberOfTail(fat: seq<byte>, n: nat)
    requires n <= |fat| && n in {1, 2, 3, 4}
    ensures n == 1 ==> Number(fat) == fat[0] + 0x100 * Number(fat[1..])
    ensures n == 2 ==> Number(fat) == fat[0] + 0x100 * fat[1] + 0x1_0000 * Number(fat[2..])
    ensures n == 3 ==> Number(fat) == fat[0] + 0x100 * fat[1] + 0x1_0000 * fat[2] + 0x100_0000 * Number(fat[3..])
    ensures n == 4 ==> Number(fat) == fat[0] + 0x100 * fat[1] + 0x1_0000 * fat[2] + 0x100_0000 * fat[3] + 0x1_0000_0000 * Number(fat[4..])
    decreases n
  {
    if n > 1 {
      NumberOfTail(fat, n - 1);
      var t := fat[n - 1..];
      assert t[0] == fat[n - 1] && t[1..] == fat[n..];
      assert Number(t) == t[0] + 0x100 * Number(t[1..]);
      hide Number;
    }
  }

  lemma WholeDigits(b0: byte, b1: byte, b2: byte, b3: byte, more: nat)
    ensures var n := b0 + 0x100 * b1 + 0x1_0000 * more; LowDigit(F16, n) == Read16(b0, b1) && Shifted(F16, n) == more
    ensures var n := b0 + 0x100 * b1 + 0x1_0000 * b2 + 0x100_0000 * b3 + 0x1_0000_0000 * more;
            LowDigit(F32, n) == Read32(b0, b1, b2, b3) && Shifted(F32, n) == more
  {
  }

  lemma TwelveBits(low: nat, rest: nat)
    requires low < 0x1000
    ensures LowDigit(F12, low + 0x1000 * rest) == low && Shifted(F12, low + 0x1000 * rest) == rest
  {
  }

  lemma HalvesJoined(b0: byte, b1: byte, b2: byte)
    ensures 0 <= ReadEven(b0, b1) < 0x1000 && 0 <= ReadOdd(b1, b2) < 0x1000
    ensures b0 + 0x100 * b1 + 0x1_0000 * b2 == ReadEven(b0, b1) + 0x1000 * ReadOdd(b1, b2)
  {
    assert b1 == b1 / 16 * 16 + b1 % 16;
  }

  lemma HalfDigits(b0: byte, b1: byte, b2: byte, more: nat)
    ensures var n := b0 + 0x100 * b1 + 0x1_0000 * b2 + 0x100_0000 * more;
            LowDigit(F12, n) == ReadEven(b0, b1) && LowDigit(F12, Shifted(F12, n)) == ReadOdd(b1, b2)
            && Shifted(F12, Shifted(F12, n)) == more
  {
    hide LowDigit, Shifted, ReadEven, ReadOdd;
    var low, high := ReadEven(b0, b1), ReadOdd(b1, b2);
    HalvesJoined(b0, b1, b2);
    TwelveBits(low, high + 0x1000 * more);
    TwelveBits(high, more);
    assert b0 + 0x100 * b1 + 0x1_0000 * b2 + 0x100_0000 * more == low + 0x1000 * (high + 0x1000 * more);
  }

  lemma DigitStep(w: Width, n: nat, k: nat)
    ensures Digit(w, n, 0) == LowDigit(w, n) && (k > 0 ==> Digit(w, n, k) == Digit(w, Shifted(w, n), k - 1))
  {
  }

  /** Sixteen and thirty-two bits: an entry is two or four bytes. */
  lemma {:induction false} WholeEntries(w: Width, fat: seq<byte>, k: nat)
    requires w != F12 && Holds(w, |fat|, k)
    ensures Entry(w, fat, k) == Digit(w, Number(fat), k)
    decreases k
  {
    hide Number, Digit, LowDigit, Shifted, Read16, Read32;
    if w == F16 {
      NumberOfTail(fat, 2);
      WholeDigits(fat[0], fat[1], 0, 0, Number(fat[2..]));
    } else {
      NumberOfTail(fat, 4);
      WholeDigits(fat[0], fat[1], fat[2], fat[3], Number(fat[4..]));
    }
    DigitStep(w, Number(fat), k);
    if k > 0 {
      WholeEntries(w, fat[if w == F16 then 2 else 4..], k - 1);
    }
  }

  lemma {:induction false} HalfEntries(fat: seq<byte>, k: nat)
    requires Holds(F12, |fat|, k)
    ensures Entry(F12, fat, k) == Digit(F12, Number(fat), k)
    decreases k
  {
    hide Number, Digit, LowDigit, Shifted, ReadEven, ReadOdd;
    DigitStep(F12, Number(fat), k);
    if |fat| == 2 {
      NumberOfTail(fat, 2);
      EmptyNumber(fat[2..]);
      HalfDigits(fat[0], fat[1], 0, 0);
    } else {
      NumberOfTail(fat, 3);
      var more := Number(fat[3..]);
      HalfDigits(fat[0], fat[1], fat[2], more);
      if k > 0 {
        DigitStep(F12, Shifted(F12, Number(fat)), k - 1);
      }
      if k > 1 {
        HalfEntries(fat[3..], k - 2);
        assert FirstByte(k) == 3 + FirstByte(k - 2);
      }
    }
  }

  lemma EmptyNumber(fat: seq<byte>)
    requires fat == []
    ensures Number(fat) == 0
  {
  }

  /** What the layout of the table means, for all three widths. */
  lemma EntryIsDigit(w: Width, fat: seq<byte>, k: nat)
    requires Holds(w, |fat|, k)
    ensures Entry(w, fat, k) == Digit(w, Number(fat), k)
  {
    if w == F12 { HalfEntries(fat, k); } else { WholeEntries(w, fat, k); }
    hide Entry, Digit, Number;
  }

  /** `mark_FAT_cluster`, byte by byte. */
  function Marked(w: Width, fat: seq<byte>, k: nat, value: nat): (r: seq<byte>)
    requires Holds(w, |fat|, k)
    ensures |r| == |fat|
  {
    var v := Cut(w, value);
    match w
    case F12 =>
      var i := FirstByte(k);
      if k % 2 == 0 then fat[i := v % 0x100][i + 1 := EvenShare(fat[i + 1], v)]
      else fat[i := OddShare(fat[i], v)][i + 1 := v / 16]
    case F16 =>
      fat[2 * k := v % 0x100][2 * k + 1 := v / 0x100]
    case F32 =>
      fat[4 * k := v % 0x100][4 * k + 1 := v / 0x100 % 0x100][4 * k + 2 := v / 0x1_0000 % 0x100][4 * k + 3 := v / 0x100_0000]
  }

  /** Marking an entry sets that entry, cut to its width, and no other. */
  lemma MarkSetsOneEntry(w: Width, fat: seq<byte>, k: nat, value: nat, j: nat)
    requires Holds(w, |fat|, k) && Holds(w, |fat|, j)
    ensures Entry(w, Marked(w, fat, k, value), j) == if j == k then Cut(w, value) else Entry(w, fat, j)
  {
    match w {
      case F12 => MarkSets12(fat, k, value, j);
      case F16 => MarkSets16(fat, k, value, j);
      case F32 => MarkSets32(fat, k, value, j);
    }
  }

  lemma MarkSets12(fat: seq<byte>, k: nat, value: nat, j: nat)
    requires Holds(F12, |fat|, k) && Holds(F12, |fat|, j)
    ensures Entry(F12, Marked(F12, fat, k, value), j) == if j == k then value % 0x1000 else Entry(F12, fat, j)
  {
    SharedByte(value % 0x1000, fat[FirstByte(k)], fat[FirstByte(k) + 1]);
    if j < k { EntriesApart(j, k); } else if j > k { EntriesApart(k, j); }
    hide ReadEven, ReadOdd, EvenShare, OddShare, FirstByte;
  }

  lemma MarkSets16(fat: seq<byte>, k: nat, value: nat, j: nat)
    requires Holds(F16, |fat|, k) && Holds(F16, |fat|, j)
    ensures Entry(F16, Marked(F16, fat, k, value), j) == if j == k then value % 0x1_0000 else Entry(F16, fat, j)
  {
    WholeBytes(value % 0x1_0000);
    hide Read16;
  }

  lemma MarkSets32(fat: seq<byte>, k: nat, value: nat, j: nat)
    requires Holds(F32, |fat|, k) && Holds(F32, |fat|, j)
    ensures Entry(F32, Marked(F32, fat, k, value), j) == if j == k then value % 0x1000_0000 else Entry(F32, fat, j)
  {
    WholeBytes(value % 0x1000_0000);
    hide Read32;
  }

  lemma WholeBytes(v: nat)
    ensures Read16(v % 0x100, v / 0x100) == v
    ensures Read32(v % 0x100, v / 0x100 % 0x100, v / 0x1_0000 % 0x100, v / 0x100_0000) == v
  {
    assert v / 0x100 == v / 0x1_0000 * 0x100 + v / 0x100 % 0x100;
    assert v / 0x1_0000 == v / 0x100_0000 * 0x100 + v / 0x1_0000 % 0x100;
  }

  /** Writing one half of the shared byte sets one entry and spares the other. */
  lemma SharedByte(v: nat, a: byte, b: byte)
    requires v < 0x1000
    ensures ReadEven(v % 0x100, EvenShare(b, v)) == v
    ensures forall c :: ReadOdd(EvenShare(b, v), c) == ReadOdd(b, c)
    ensures ReadOdd(OddShare(a, v), v / 16) == v
    ensures forall c :: ReadEven(c, OddShare(a, v)) == ReadEven(c, a)
  {
  }

  // ----- runs of marks -----

  datatype Mark = Mark(cluster: nat, value: nat)

  predicate AllHeld(w: Width, length: nat, marks: seq<Mark>) {
    forall m :: m in marks ==> Holds(w, length, m.cluster)
  }

  function MarkedAll(w: Width, fat: seq<byte>, marks: seq<Mark>): (r: seq<byte>)
    requires AllHeld(w, |fat|, marks)
    ensures |r| == |fat|
  {
    if marks == [] then fat
    else Marked(w, MarkedAll(w, fat, marks[..|marks| - 1]), marks[|marks| - 1].cluster, marks[|marks| - 1].value)
  }

  /** The last value given to `k`, or what the table held before. */
  function LastValue(w: Width, fat: seq<byte>, marks: seq<Mark>, k: nat): int
    requires Holds(w, |fat|, k)
  {
    if marks == [] then Entry(w, fat, k)
    else if marks[|marks| - 1].cluster == k then Cut(w, marks[|marks| - 1].value)
    else LastValue(w, fat, marks[..|marks| - 1], k)
  }

  /** After any run of marks each entry reads as the last value it was given. */
  lemma {:induction false} EntriesRemember(w: Width, fat: seq<byte>, marks: seq<Mark>, k: nat)
    requires AllHeld(w, |fat|, marks) && Holds(w, |fat|, k)
    ensures Entry(w, MarkedAll(w, fat, marks), k) == LastValue(w, fat, marks, k)
  {
    hide Entry, Marked, Holds;
    if marks != [] {
      var rest, m := marks[..|marks| - 1], marks[|marks| - 1];
      EntriesRemember(w, fat, rest, k);
      MarkSetsOneEntry(w, MarkedAll(w, fat, rest), m.cluster, m.value, k);
    }
  }
}
