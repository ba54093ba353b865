/**
 * The ring that holds the queue: a power-of-two array, and read and write positions that
 * run freely through all 32-bit values and are masked only to index the array.
 */
module CycleBuffer {
  import opened MachineInt
  import opened CycleQueue

  // ----- sizes -----

  /** `n` halves until one is left. */
  predicate PowerOfTwo(n: nat) { n == 1 || (n > 1 && n % 2 == 0 && PowerOfTwo(n / 2)) }

  // The 32 values with a single bit set, byte by byte.

  predicate BitOfByte0(s: bv32) {
    || s == 0x1 || s == 0x2 || s == 0x4 || s == 0x8
    || s == 0x10 || s == 0x20 || s == 0x40 || s == 0x80
  }

  predicate BitOfByte1(s: bv32) {
    || s == 0x100 || s == 0x200 || s == 0x400 || s == 0x800
    || s == 0x1000 || s == 0x2000 || s == 0x4000 || s == 0x8000
  }

  predicate BitOfByte2(s: bv32) {
    || s == 0x1_0000 || s == 0x2_0000 || s == 0x4_0000 || s == 0x8_0000
    || s == 0x10_0000 || s == 0x20_0000 || s == 0x40_0000 || s == 0x80_0000
  }

  predicate BitOfByte3(s: bv32) {
    || s == 0x100_0000 || s == 0x200_0000 || s == 0x400_0000 || s == 0x800_0000
    || s == 0x1000_0000 || s == 0x2000_0000 || s == 0x4000_0000 || s == 0x8000_0000
  }

  predicate OneBit(s: bv32) { BitOfByte0(s) || BitOfByte1(s) || BitOfByte2(s) || BitOfByte3(s) }

  lemma OneBitTest(s: bv32)
    ensures s & (s - 1) == 0 <==> s == 0 || OneBit(s)
  {
  }

  function Shift(k: nat): nat { if k == 0 then 1 else 2 * Shift(k - 1) }

  lemma {:induction false} PowerDivides(n: nat, k: nat) returns (m: nat)
    requires PowerOfTwo(n) && n <= Shift(k)
    ensures m * n == Shift(k)
    decreases k
  {
    if n == 1 {
      m := Shift(k);
    } else {
      m := PowerDivides(n / 2, k - 1);
      assert m * n == m * (2 * (n / 2)) == 2 * (m * (n / 2));
    }
  }

  lemma TwoTo32()
    ensures Shift(32) == TWO32
  {
    assert Shift(8) == 256;
    assert Shift(16) == 256 * 256;
    assert Shift(24) == 256 * 256 * 256;
  }

  // The same values as numbers.

  predicate NumberOfByte0(n: nat) {
    || n == 0x1 || n == 0x2 || n == 0x4 || n == 0x8
    || n == 0x10 || n == 0x20 || n == 0x40 || n == 0x80
  }

  predicate NumberOfByte1(n: nat) {
    || n == 0x100 || n == 0x200 || n == 0x400 || n == 0x800
    || n == 0x1000 || n == 0x2000 || n == 0x4000 || n == 0x8000
  }

  predicate NumberOfByte2(n: nat) {
    || n == 0x1_0000 || n == 0x2_0000 || n == 0x4_0000 || n == 0x8_0000
    || n == 0x10_0000 || n == 0x20_0000 || n == 0x40_0000 || n == 0x80_0000
  }

  predicate NumberOfByte3(n: nat) {
    || n == 0x100_0000 || n == 0x200_0000 || n == 0x400_0000 || n == 0x800_0000
    || n == 0x1000_0000 || n == 0x2000_0000 || n == 0x4000_0000 || n == 0x8000_0000
  }

  predicate Listed(n: nat) { NumberOfByte0(n) || NumberOfByte1(n) || NumberOfByte2(n) || NumberOfByte3(n) }

  lemma {:induction false} ShiftIsPower(k: nat)
    ensures PowerOfTwo(Shift(k)) && Shift(k) > 0
  {
    if k > 0 {
      ShiftIsPower(k - 1);
    }
  }

  lemma {:induction false} PowerIsShift(n: nat, k: nat) returns (j: nat)
    requires PowerOfTwo(n) && n < Shift(k)
    ensures j < k && n == Shift(j)
    decreases k
  {
    if n == 1 {
      j := 0;
      assert k > 0;
    } else {
      j := PowerIsShift(n / 2, k - 1);
      j := j + 1;
    }
  }

  lemma ShiftValues()
    ensures Shift(0) == 0x1 && Shift(1) == 0x2 && Shift(2) == 0x4 && Shift(3) == 0x8
    ensures Shift(4) == 0x10 && Shift(5) == 0x20 && Shift(6) == 0x40 && Shift(7) == 0x80
    ensures Shift(8) == 0x100 && Shift(9) == 0x200 && Shift(10) == 0x400 && Shift(11) == 0x800
    ensures Shift(12) == 0x1000 && Shift(13) == 0x2000 && Shift(14) == 0x4000 && Shift(15) == 0x8000
    ensures Shift(16) == 0x1_0000 && Shift(17) == 0x2_0000 && Shift(18) == 0x4_0000 && Shift(19) == 0x8_0000
    ensures Shift(20) == 0x10_0000 && Shift(21) == 0x20_0000 && Shift(22) == 0x40_0000 && Shift(23) == 0x80_0000
    ensures Shift(24) == 0x100_0000 && Shift(25) == 0x200_0000 && Shift(26) == 0x400_0000 && Shift(27) == 0x800_0000
    ensures Shift(28) == 0x1000_0000 && Shift(29) == 0x2000_0000 && Shift(30) == 0x4000_0000 && Shift(31) == 0x8000_0000
  {
    assert Shift(1) == 0x2;
    assert Shift(3) == 0x8;
    assert Shift(5) == 0x20;
    assert Shift(7) == 0x80;
    assert Shift(9) == 0x200;
    assert Shift(11) == 0x800;
    assert Shift(13) == 0x2000;
    assert Shift(15) == 0x8000;
    assert Shift(17) == 0x2_0000;
    assert Shift(19) == 0x8_0000;
    assert Shift(21) == 0x20_0000;
    assert Shift(23) == 0x80_0000;
    assert Shift(25) == 0x200_0000;
    assert Shift(27) == 0x800_0000;
    assert Shift(29) == 0x2000_0000;
    assert Shift(31) == 0x8000_0000;
  }

  lemma ListedIsPower(n: nat)
    requires n < TWO32
    ensures Listed(n) <==> PowerOfTwo(n)
  {
    ShiftValues();
    if PowerOfTwo(n) {
      TwoTo32();
      var j := PowerIsShift(n, 32);
      hide Shift, PowerOfTwo;
      assert Listed(n);
    } else {
      hide Shift, PowerOfTwo;
      forall k: nat ensures n != Shift(k) { ShiftIsPower(k); }
    }
  }

  lemma SameByte0(s: bv32)
    ensures BitOfByte0(s) <==> NumberOfByte0(s as nat)
  {
  }

  lemma SameByte1(s: bv32)
    ensures BitOfByte1(s) <==> NumberOfByte1(s as nat)
  {
  }

  lemma SameByte2(s: bv32)
    ensures BitOfByte2(s) <==> NumberOfByte2(s as nat)
  {
  }

  lemma SameByte3(s: bv32)
    ensures BitOfByte3(s) <==> NumberOfByte3(s as nat)
  {
  }

  lemma OneBitIsPower(s: bv32)
    ensures OneBit(s) <==> PowerOfTwo(s as nat)
  {
    SameByte0(s);
    SameByte1(s);
    SameByte2(s);
    SameByte3(s);
    ListedIsPower(s as nat);
    hide PowerOfTwo, BitOfByte0, BitOfByte1, BitOfByte2, BitOfByte3, NumberOfByte0, NumberOfByte1, NumberOfByte2, NumberOfByte3;
  }

  /** The test of `init_cycle_buffer` accepts the powers of two, and zero. */
  lemma SizeTest(s: bv32)
    ensures s & (s - 1) == 0 <==> s == 0 || PowerOfTwo(s as nat)
  {
    OneBitTest(s);
    OneBitIsPower(s);
    hide OneBit, PowerOfTwo;
  }

  // ----- positions -----

  /** A position moved on by `k`, and how far one position is behind another: both 32 bits wide. */
  function Advance(position: nat, k: nat): nat { U32(position + k) }

  function Distance(inPos: nat, outPos: nat): nat { U32(inPos - outPos) }

  /** `position & (size - 1)`; in a buffer of size zero the positions never leave zero. */
  function Mask(position: nat, n: nat): (p: nat)
    requires n > 0 || position == 0
    ensures if n > 0 then p < n else p == 0
  {
    if n == 0 then position else position % n
  }

  lemma AtLeastOnce(d: nat, n: nat)
    requires d >= 1
    ensures d * n >= n
  {
  }

  lemma MultiplesApart(q: int, p: int, n: nat)
    requires q > p
    ensures q * n >= p * n + n
  {
    AtLeastOnce(q - p, n);
    assert (q - p) * n == q * n - p * n;
  }

  lemma RemainderIs(x: nat, n: nat, q: int, r: nat)
    requires x == q * n + r && r < n
    ensures x % n == r
  {
    var p := x / n;
    assert x == p * n + x % n;
    if q > p { MultiplesApart(q, p, n); }
    if p > q { MultiplesApart(p, q, n); }
  }

  lemma Regroup(q: nat, m: nat, n: nat, d: nat)
    ensures q * (m * n) + d * n == (q * m + d) * n
  {
    assert q * (m * n) == (q * m) * n;
  }

  lemma RemainderOfSum(q: nat, m: nat, n: nat, r: nat)
    requires n > 0
    ensures (q * (m * n) + r) % n == r % n
  {
    var d, e := r / n, r % n;
    assert r == d * n + e;
    Regroup(q, m, n, d);
    RemainderIs(q * (m * n) + r, n, q * m + d, e);
  }

  /** Masking a position forgets nothing but its upper bits: a power of two divides 2^32. */
  lemma MaskForgets(x: nat, n: nat)
    requires PowerOfTwo(n) && 0 < n <= TWO31
    ensures Mask(U32(x), n) == Mask(x, n)
  {
    TwoTo32();
    var m := PowerDivides(n, 32);
    var q := x / 0x1_0000_0000;
    assert x == q * 0x1_0000_0000 + U32(x);
    assert q * (m * n) == q * 0x1_0000_0000;
    RemainderOfSum(q, m, n, U32(x));
    hide U32, PowerOfTwo;
  }

  /** Where the `k`-th byte behind position `start` is kept. */
  function Slot(start: nat, k: nat, n: nat): (p: nat)
    requires n > 0
    ensures p < n
  {
    Mask(Advance(start, k), n)
  }

  lemma MaskOfSum(start: nat, k: nat, n: nat)
    requires k < n
    ensures Mask(start + k, n) == var p := Mask(start, n); if p + k < n then p + k else p + k - n
  {
    var q, p := start / n, start % n;
    assert start == q * n + p;
    if p + k < n {
      RemainderIs(start + k, n, q, p + k);
    } else {
      assert (q + 1) * n == q * n + n;
      RemainderIs(start + k, n, q + 1, p + k - n);
    }
  }

  lemma SlotIs(start: nat, k: nat, n: nat)
    requires PowerOfTwo(n) && n <= TWO31 && k < n
    ensures Slot(start, k, n) == var p := Mask(start, n); if p + k < n then p + k else p + k - n
  {
    hide Mask, PowerOfTwo, U32;
    MaskForgets(start + k, n);
    MaskOfSum(start, k, n);
  }

  /** The slot of a later byte, counted from either end of the queue. */
  lemma SlotFrom(start: nat, k: nat, j: nat, n: nat)
    requires n > 0
    ensures Slot(Advance(start, k), j, n) == Slot(start, k + j, n)
  {
    WrapSum(start + k, j);
    hide U32, Mask;
  }

  /** The bytes in the slots behind `start`. */
  function Ring(a: seq<byte>, start: nat, n: nat): (r: seq<byte>)
    requires |a| > 0 || n == 0
    ensures |r| == n
  {
    seq(n, i requires 0 <= i < n => a[Slot(start, i, |a|)])
  }

  function Written(a: seq<byte>, at: nat, chunk: seq<byte>): (r: seq<byte>)
    requires at + |chunk| <= |a|
    ensures |r| == |a|
    ensures forall j :: 0 <= j < |a| ==> r[j] == if at <= j < at + |chunk| then chunk[j - at] else a[j]
  {
    a[..at] + chunk + a[at + |chunk|..]
  }

  /** Both pieces of a put, around the end of the array. */
  function WrittenAround(a: seq<byte>, at: nat, data: seq<byte>): seq<byte>
    requires at <= |a| && |data| <= |a|
  {
    var l := Min(|data|, |a| - at);
    Written(Written(a, at, data[..l]), 0, data[l..])
  }

  lemma WrittenAroundAt(a: seq<byte>, at: nat, data: seq<byte>, s: nat)
    requires at < |a| && |data| <= |a| && s < |a|
    ensures WrittenAround(a, at, data)[s] ==
              if at <= s < at + |data| then data[s - at]
              else if s + |a| < at + |data| then data[s + |a| - at]
              else a[s]
  {
    hide Written;
  }

  /** Bytes already buffered are outside the two pieces of a put, and its `i`-th byte is the `i`-th of the pieces. */
  lemma PutSlots(start: nat, n: nat, len: nat, k: nat, size: nat)
    requires PowerOfTwo(size) && size <= TWO31 && n < size && n + len <= size && k < n + len
    ensures size > 0
    ensures var at, s := Slot(start, n, size), Slot(start, k, size);
            if k < n then !(at <= s < at + len) && at + len <= s + size
            else if at <= s then s - at == k - n
            else s + size - at == k - n
  {
    hide PowerOfTwo, Slot, Mask;
    SlotIs(start, k, size);
    SlotIs(start, n, size);
  }

  lemma PutAt(a: seq<byte>, start: nat, n: nat, data: seq<byte>, k: nat)
    requires PowerOfTwo(|a|) && |a| <= TWO31 && n + |data| <= |a| && k < n + |data| && |a| > 0
    ensures WrittenAround(a, Slot(start, n, |a|), data)[Slot(start, k, |a|)]
         == if k < n then a[Slot(start, k, |a|)] else data[k - n]
  {
    hide *;
    var at, s := Slot(start, n, |a|), Slot(start, k, |a|);
    if n < |a| {
      PutSlots(start, n, |data|, k, |a|);
    }
    assert if k < n then !(at <= s < at + |data|) && at + |data| <= s + |a|
           else if at <= s then s - at == k - n
           else s + |a| - at == k - n;
    WrittenAroundAt(a, at, data, s);
  }

  lemma RingAt(a: seq<byte>, start: nat, n: nat, k: nat)
    requires |a| > 0 && k < n
    ensures Ring(a, start, n)[k] == a[Slot(start, k, |a|)]
  {
    hide Slot;
  }

  lemma RingPutAt(a: seq<byte>, b: seq<byte>, start: nat, n: nat, data: seq<byte>, k: nat)
    requires PowerOfTwo(|a|) && |a| <= TWO31 && n + |data| <= |a| && k < n + |data| && |a| > 0
    requires |b| == |a| && b == WrittenAround(a, Slot(start, n, |a|), data)
    ensures Ring(b, start, n + |data|)[k] == (Ring(a, start, n) + data)[k]
  {
    hide *;
    PutAt(a, start, n, data, k);
    RingAt(b, start, n + |data|, k);
    if k < n {
      RingAt(a, start, n, k);
    }
  }

  /** A put leaves the bytes of the queue where they are and puts its own behind them. */
  lemma RingAfterPut(a: seq<byte>, start: nat, n: nat, data: seq<byte>)
    requires PowerOfTwo(|a|) && |a| <= TWO31 && n + |data| <= |a| && |a| > 0
    ensures |WrittenAround(a, Slot(start, n, |a|), data)| == |a|
    ensures Ring(WrittenAround(a, Slot(start, n, |a|), data), start, n + |data|) == Ring(a, start, n) + data
  {
    var b := WrittenAround(a, Slot(start, n, |a|), data);
    assert |b| == |a|;
    hide PowerOfTwo, Slot, WrittenAround, Ring;
    forall k | 0 <= k < n + |data| ensures Ring(b, start, n + |data|)[k] == (Ring(a, start, n) + data)[k] {
      RingPutAt(a, b, start, n, data, k);
    }
  }

  /** The oldest bytes, read in two pieces around the end of the array. */
  function ReadAround(a: seq<byte>, at: nat, n: nat): (r: seq<byte>)
    requires at <= |a| && n <= |a|
    ensures |r| == n
    ensures forall k :: 0 <= k < n ==> r[k] == if at + k < |a| then a[at + k] else a[at + k - |a|]
  {
    var l := Min(n, |a| - at);
    a[at..at + l] + a[..n - l]
  }

  /** Both pieces of a get, written behind each other. */
  lemma WrittenTwice(d: seq<byte>, a: seq<byte>, at: nat, n: nat)
    requires at <= |a| && n <= |a| && n <= |d|
    ensures var l := Min(n, |a| - at);
            Written(Written(d, 0, a[at..at + l]), l, a[0..n - l]) == Written(d, 0, ReadAround(a, at, n))
  {
    hide Written, ReadAround;
  }

  lemma ReadAroundAt(a: seq<byte>, start: nat, n: nat, k: nat)
    requires PowerOfTwo(|a|) && 0 < |a| <= TWO31 && k < n <= |a|
    ensures ReadAround(a, Mask(start, |a|), n)[k] == a[Slot(start, k, |a|)]
  {
    hide *;
    SlotIs(start, k, |a|);
  }

  /** The oldest bytes of the queue are the two pieces of a get. */
  lemma RingPieces(a: seq<byte>, start: nat, n: nat)
    requires PowerOfTwo(|a|) && 0 < |a| <= TWO31 && n <= |a|
    ensures Ring(a, start, n) == ReadAround(a, Mask(start, |a|), n)
  {
    var r := ReadAround(a, Mask(start, |a|), n);
    hide PowerOfTwo, ReadAround, Slot, Mask;
    forall k | 0 <= k < n ensures Ring(a, start, n)[k] == r[k] {
      ReadAroundAt(a, start, n, k);
    }
  }

  lemma DistanceIs(inPos: nat, outPos: nat)
    requires inPos < TWO32 && outPos < TWO32
    ensures Distance(inPos, outPos) == if inPos >= outPos then inPos - outPos else inPos - outPos + TWO32
  {
  }

  lemma AdvanceIs(position: nat, k: nat)
    requires position < TWO32 && k < TWO31
    ensures Advance(position, k) == if position + k < TWO32 then position + k else position + k - TWO32
  {
  }

  lemma RoomIs(size: nat, inPos: nat, outPos: nat)
    requires inPos < TWO32 && outPos < TWO32 && Distance(inPos, outPos) <= size < TWO31
    ensures U32(size - inPos + outPos) == size - Distance(inPos, outPos)
  {
  }

  /** The 32-bit differences of the positions, before and after a put or a get of `len` bytes. */
  lemma Positions(size: nat, inPos: nat, outPos: nat, len: nat)
    requires inPos < TWO32 && outPos < TWO32 && Distance(inPos, outPos) <= size < TWO31 && len <= size
    ensures var n := Distance(inPos, outPos);
            Advance(outPos, n) == inPos && U32(size - inPos + outPos) == size - n
            && (len <= size - n ==> Distance(Advance(inPos, len), outPos) == n + len)
            && (len <= n ==> Distance(inPos, Advance(outPos, len)) == n - len)
            && Advance(inPos, len) < TWO32 && Advance(outPos, len) < TWO32
  {
    hide Distance, Advance, U32;
    DistanceIs(inPos, outPos);
    RoomIs(size, inPos, outPos);
    AdvanceIs(outPos, Distance(inPos, outPos));
    AdvanceIs(inPos, len);
    AdvanceIs(outPos, len);
    DistanceIs(Advance(inPos, len), outPos);
    DistanceIs(inPos, Advance(outPos, len));
  }

  /** What is left after a get. */
  lemma RingSuffix(a: seq<byte>, start: nat, n: nat, k: nat)
    requires (|a| > 0 || n == 0) && k <= n
    ensures Ring(a, start, n)[..k] == Ring(a, start, k)
    ensures Ring(a, Advance(start, k), n - k) == Ring(a, start, n)[k..]
  {
    hide Slot, Advance;
    forall j | 0 <= j < n - k ensures Ring(a, Advance(start, k), n - k)[j] == Ring(a, start, n)[k..][j] {
      SlotFrom(start, k, j, |a|);
    }
  }

  // ----- the fields, and the queue they hold -----

  datatype Fields = Fields(buf: seq<byte>, size: nat, inPos: nat, outPos: nat, itemNum: int, totalWrite: nat, totalRead: nat)

  predicate Positioned(f: Fields) {
    && (f.size == 0 || PowerOfTwo(f.size)) && f.size < TWO31 && |f.buf| == f.size
    && (f.size == 0 ==> f.inPos == 0 && f.outPos == 0)
    && f.inPos < TWO32 && f.outPos < TWO32 && Distance(f.inPos, f.outPos) <= f.size
  }

  /** The queue in the ring. */
  function View(f: Fields): (q: Queue)
    requires Positioned(f)
    ensures |q.bytes| == Distance(f.inPos, f.outPos)
  {
    Queue(Ring(f.buf, f.outPos, Distance(f.inPos, f.outPos)), f.size, f.totalWrite, f.totalRead, f.itemNum)
  }

  predicate Consistent(f: Fields) { Positioned(f) && CycleQueue.Valid(View(f)) }

  /** The fields after a put of which `data` was taken, and after a get of `len` bytes. */
  function Stored(f: Fields, data: seq<byte>): Fields
    requires Positioned(f) && |data| <= f.size
  {
    var w := Counted(f.totalWrite);
    f.(buf := WrittenAround(f.buf, Mask(f.inPos, f.size), data), inPos := Advance(f.inPos, |data|),
       totalWrite := w, itemNum := Difference(w, f.totalRead))
  }

  function Fetched(f: Fields, len: nat): Fields {
    var r := Counted(f.totalRead);
    f.(outPos := Advance(f.outPos, len), totalRead := r, itemNum := Difference(f.totalWrite, r))
  }

  lemma StoredNowhere(f: Fields)
    requires Positioned(f) && f.size == 0
    ensures Positioned(Stored(f, [])) && View(Stored(f, [])).bytes == View(f).bytes == []
  {
  }

  lemma FetchedFromNowhere(f: Fields)
    requires Positioned(f) && f.size == 0
    ensures Positioned(Fetched(f, 0)) && View(Fetched(f, 0)).bytes == View(f).bytes == []
  {
    hide ReadAround, PowerOfTwo, Ring;
  }

  lemma StoredIsPositioned(f: Fields, data: seq<byte>)
    requires Positioned(f) && |data| <= f.size - Distance(f.inPos, f.outPos)
    ensures Positioned(Stored(f, data))
    ensures View(Stored(f, data)).bytes == View(f).bytes + data
  {
    hide Ring, Mask, PowerOfTwo, WrittenAround, U32, Counted, Difference, Advance, Distance;
    var n := Distance(f.inPos, f.outPos);
    Positions(f.size, f.inPos, f.outPos, |data|);
    if f.size == 0 {
      StoredNowhere(f);
      return;
    }
    assert Slot(f.outPos, n, f.size) == Mask(f.inPos, f.size);
    RingAfterPut(f.buf, f.outPos, n, data);
  }

  /** Storing what finds room is a put on the queue. */
  lemma PutRefines(f: Fields, data: seq<byte>)
    requires Consistent(f) && data != []
    ensures var n := Taken(View(f), data);
            n == Min(|data|, U32(f.size - f.inPos + f.outPos)) && n <= |data| && n <= f.size
            && Consistent(Stored(f, data[..n])) && View(Stored(f, data[..n])) == CycleQueue.Put(View(f), data)
  {
    hide Ring, Mask, PowerOfTwo, WrittenAround, U32, Advance, Distance;
    Positions(f.size, f.inPos, f.outPos, 0);
    StoredIsPositioned(f, data[..Taken(View(f), data)]);
  }

  lemma FetchedIsPositioned(f: Fields, len: nat)
    requires Positioned(f) && len <= Distance(f.inPos, f.outPos)
    ensures Positioned(Fetched(f, len))
    ensures View(Fetched(f, len)).bytes == View(f).bytes[len..]
    ensures View(f).bytes[..len] == ReadAround(f.buf, Mask(f.outPos, f.size), len)
  {
    hide Ring, Mask, PowerOfTwo, ReadAround, U32, Counted, Difference, Advance, Distance;
    Positions(f.size, f.inPos, f.outPos, len);
    if f.size == 0 {
      FetchedFromNowhere(f);
      return;
    }
    RingPieces(f.buf, f.outPos, len);
    RingSuffix(f.buf, f.outPos, Distance(f.inPos, f.outPos), len);
  }

  /** Fetching from the read position is a get on the queue. */
  lemma GetRefines(f: Fields, wanted: nat)
    requires Consistent(f) && wanted > 0 && !Refuses(View(f), wanted)
    ensures var n := Min(wanted, Distance(f.inPos, f.outPos));
            0 <= n <= f.size && Consistent(Fetched(f, n))
            && CycleQueue.Get(View(f), wanted) == (ReadAround(f.buf, Mask(f.outPos, f.size), n), View(Fetched(f, n)))
  {
    hide Ring, Mask, PowerOfTwo, ReadAround, U32, Advance, Distance;
    FetchedIsPositioned(f, Min(wanted, Distance(f.inPos, f.outPos)));
  }

  /** The fields of a new buffer hold the empty queue. */
  lemma NewIsEmpty(buf: seq<byte>, size: nat)
    requires |buf| == size < TWO31 && (size == 0 || PowerOfTwo(size))
    ensures Consistent(Fields(buf, size, 0, 0, 0, 0, 0)) && View(Fields(buf, size, 0, 0, 0, 0, 0)) == Empty(size)
  {
    NoDistance();
    hide PowerOfTwo, Ring, Distance;
  }

  lemma NoDistance()
    ensures Distance(0, 0) == 0
  {
  }

  // ----- the buffer -----

  class Fifo {
    var buf: array<byte>
    var size: nat
    var inPos: nat
    var outPos: nat
    var itemNum: int
    var totalWrite: nat
    var totalRead: nat

    ghost function All(): Fields
      reads this, buf
    {
      Fields(buf[..], size, inPos, outPos, itemNum, totalWrite, totalRead)
    }

    ghost predicate Valid()
      reads this, buf
    {
      Consistent(All())
    }

    ghost function Contents(): Queue
      requires Valid()
      reads this, buf
    {
      View(All())
    }

    /** `init_cycle_buffer`, for the sizes that pass its test */
    constructor (n: nat)
      requires (n == 0 || PowerOfTwo(n)) && n < TWO31
      ensures Valid() && fresh(buf) && Contents() == Empty(n)
    {
      buf := new byte[n](_ => 0);
      size, inPos, outPos, itemNum, totalWrite, totalRead := n, 0, 0, 0, 0, 0;
    }

    /** `memcpy` into the ring */
    method CopyIn(at: nat, chunk: seq<byte>)
      requires at + |chunk| <= buf.Length
      modifies buf
      ensures buf[..] == Written(old(buf[..]), at, chunk)
    {
      var i := 0;
      while i < |chunk|
        invariant i <= |chunk|
        invariant forall j :: 0 <= j < buf.Length ==> buf[j] == if at <= j < at + i then chunk[j - at] else old(buf[j])
      {
        buf[at + i] := chunk[i];
        i := i + 1;
      }
    }

    /** `memcpy` out of the ring */
    method CopyOut(dst: array<byte>, to: nat, from: nat, n: nat)
      requires from + n <= buf.Length && to + n <= dst.Length && dst != buf
      modifies dst
      ensures dst[..] == Written(old(dst[..]), to, buf[from..from + n])
    {
      var i := 0;
      while i < n
        invariant i <= n
        invariant forall j :: 0 <= j < dst.Length ==> dst[j] == if to <= j < to + i then buf[from + j - to] else old(dst[j])
      {
        dst[to + i] := buf[from + i];
        i := i + 1;
      }
    }

    method CountItems()
      modifies this`itemNum
      ensures itemNum == Difference(totalWrite, totalRead)
    {
      if totalWrite >= totalRead {
        itemNum := totalWrite - totalRead;
      } else {
        itemNum := totalWrite + 1000000 - totalRead;
      }
    }

    /** Both pieces of a put, behind the write position. */
    method CopyInAround(data: seq<byte>)
      requires buf.Length == size && (size > 0 || inPos == 0) && |data| <= size
      modifies buf
      ensures buf[..] == WrittenAround(old(buf[..]), Mask(inPos, size), data)
    {
      var l := Min(|data|, size - Mask(inPos, size));
      hide Written, Mask;
      CopyIn(Mask(inPos, size), data[..l]);
      CopyIn(0, data[l..]);
    }

    /** Both pieces of a get, behind the read position. */
    method CopyOutAround(dst: array<byte>, len: nat)
      requires buf.Length == size && (size > 0 || outPos == 0) && len <= size && len <= dst.Length && dst != buf
      modifies dst
      ensures dst[..] == Written(old(dst[..]), 0, ReadAround(buf[..], Mask(outPos, size), len))
    {
      hide Mask, Written, ReadAround;
      var at := Mask(outPos, size);
      var l := Min(len, size - at);
      WrittenTwice(dst[..], buf[..], at, len);
      CopyOut(dst, 0, at, l);
      CopyOut(dst, l, 0, len - l);
    }

    /** `fifo_put` */
    method Put(data: seq<byte>) returns (ret: nat)
      requires Valid() && |data| < TWO32
      modifies this, buf
      ensures Valid() && buf == old(buf)
      ensures Contents() == CycleQueue.Put(old(Contents()), data) && ret == Taken(old(Contents()), data)
    {
      if |data| == 0 {
        return 0;
      }
      hide Taken, CycleQueue.Put, PowerOfTwo, U32, Stored, View;
      PutRefines(All(), data);
      var len := Min(|data|, U32(size - inPos + outPos));
      Store(data[..len]);
      ret := len;
    }

    method Store(data: seq<byte>)
      requires Positioned(All()) && |data| <= size
      modifies this, buf
      ensures buf == old(buf) && All() == Stored(old(All()), data)
    {
      hide WrittenAround, Mask, U32;
      CopyInAround(data);
      inPos := U32(inPos + |data|);
      totalWrite := totalWrite + 1;
      if totalWrite >= 1000000 {
        totalWrite := 0;
      }
      CountItems();
    }

    /** `fifo_get` */
    method Get(dst: array<byte>, wanted: nat) returns (ret: nat)
      requires Valid() && wanted <= dst.Length && wanted < TWO32 && dst != buf
      modifies this, dst
      ensures Valid() && buf == old(buf)
      ensures Contents() == CycleQueue.Get(old(Contents()), wanted).1
      ensures Refuses(old(Contents()), wanted) ==> ret == TWO32 - 1 && dst[..] == old(dst[..])
      ensures !Refuses(old(Contents()), wanted) ==>
                var got := CycleQueue.Get(old(Contents()), wanted).0; ret == |got| && dst[..] == Written(old(dst[..]), 0, got)
    {
      if itemNum < 1 {
        return U32(-1);
      }
      if wanted == 0 {
        return 0;
      }
      var len := Min(wanted, U32(inPos - outPos));
      if len >= MAX_FRAME_BUF_SIZE || Min(len, size - Mask(outPos, size)) >= MAX_FRAME_BUF_SIZE {
        return U32(-1);
      }
      GetRefines(All(), wanted);
      hide View, CycleQueue.Get, PowerOfTwo, Written, ReadAround, Mask, U32, Fetched;
      Fetch(dst, len);
      ret := len;
    }

    method Fetch(dst: array<byte>, len: nat)
      requires buf.Length == size && (size > 0 || outPos == 0) && len <= size && len <= dst.Length && dst != buf
      modifies this, dst
      ensures buf == old(buf) && All() == Fetched(old(All()), len)
      ensures dst[..] == Written(old(dst[..]), 0, ReadAround(old(buf[..]), Mask(old(outPos), old(size)), len))
    {
      hide Written, ReadAround, Mask, U32;
      CopyOutAround(dst, len);
      outPos := U32(outPos + len);
      totalRead := totalRead + 1;
      if totalRead >= 1000000 {
        totalRead := 0;
      }
      CountItems();
    }

    /** `fifo_reset` */
    method Reset()
      requires Valid()
      modifies this
      ensures Valid() && buf == old(buf) && Contents() == Empty(old(size))
    {
      NewIsEmpty(buf[..], size);
      itemNum, inPos, outPos, totalRead, totalWrite := 0, 0, 0, 0, 0;
      hide *;
    }

    /** `fifo_enable_insert_length` */
    method EnableInsert(len: nat) returns (ok: bool)
      requires Valid()
      ensures ok == EnableInsertLength(Contents(), len)
    {
      ok := !(U32(U32(inPos - outPos) + len) > U32(size - 10 * 1024));
    }
  }
}
