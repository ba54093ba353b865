/**
 * Finding the thumbnail inside a JPEG file: the scanner keeps a window of eight bytes that it
 * starts over again and again. It must not miss a marker that lies across a restart.
 */
module Thumbnail {
  import opened MachineInt

  const TEMP_BUF_LEN: nat := 8
  const MAX_THM_SIZE: nat := 64 * 1024

  predicate IsStart(b: seq<byte>, j: int) { 0 <= j < |b| - 1 && b[j] == 0xFF && b[j + 1] == 0xD8 }

  predicate IsEnd(b: seq<byte>, j: int) { 0 <= j < |b| - 1 && b[j] == 0xFF && b[j + 1] == 0xD9 }

  datatype Marks = Marks(start: nat, end: nat, matched: bool, done: bool)

  const NONE := Marks(0, 0, false, false)

  /** What the two comparisons do when byte `i` was read. */
  function Mark(m: Marks, b: seq<byte>, i: nat): Marks
    requires 0 < i < |b|
  {
    if IsStart(b, i - 1) then m.(start := i - 1, matched := true)
    else if IsEnd(b, i - 1) then m.(end := i + 1, done := m.matched)
    else m
  }

  /** With a signed `char` the window forgets a last byte 0xFF, and every seventh comparison is lost. */
  predicate Seen(signed: bool, i: nat) { i > 0 && !(signed && i % 7 == 0) }

  /** The scan over the whole sequence, from byte `i` on, without a window. */
  function Scan(b: seq<byte>, signed: bool, i: nat, m: Marks): Marks
    requires i <= |b|
    decreases |b| - i
  {
    if m.done || i == |b| then m else Scan(b, signed, i + 1, if Seen(signed, i) then Mark(m, b, i) else m)
  }

  // ----- the window -----

  predicate Full(c: byte, signed: bool) { !signed && c == 0xFF }

  /** The loop of `FileTrans_GetThmFromJpg`; at the end of the file `getc` delivers one more 0xFF. */
  method FindMarks(b: seq<byte>, signed: bool) returns (m: Marks)
    ensures m == Scan(b, signed, 0, NONE)
  {
    var tempbuf := new byte[TEMP_BUF_LEN](_ => 0);
    var bufpos, i, eof := 0, 0, false;
    m := NONE;
    while !eof && !m.done
      invariant 0 <= bufpos < TEMP_BUF_LEN && i <= |b|
      invariant Scan(b, signed, i, m) == Scan(b, signed, 0, NONE)
      invariant !eof && bufpos > 0 ==> i > 0 && tempbuf[bufpos - 1] == b[i - 1]
      invariant !eof && bufpos == 0 && i > 0 && !signed ==> b[i - 1] != 0xFF
      invariant !eof && signed ==> bufpos == i % 7
      invariant eof ==> i == |b|
      decreases |b| - i, !eof
    {
      var c: byte := 0xFF;
      if i < |b| {
        c := b[i];
        i := i + 1;
      } else {
        eof := true;
      }
      tempbuf[bufpos] := c;
      if bufpos > 0 {
        if tempbuf[bufpos - 1] == 0xFF && c == 0xD8 {
          m := m.(start := if i >= 2 then i - 2 else 0, matched := true);
        }
        if tempbuf[bufpos - 1] == 0xFF && c == 0xD9 {
          m := m.(end := i, done := m.matched);
        }
      }
      bufpos := bufpos + 1;
      if bufpos == TEMP_BUF_LEN - 1 {
        if !Full(tempbuf[bufpos - 1], signed) {
          bufpos := 0;
        }
      } else if bufpos > TEMP_BUF_LEN - 1 {
        if Full(tempbuf[bufpos - 1], signed) {
          tempbuf[0] := 0xFF;
          bufpos := 1;
        } else {
          bufpos := 0;
        }
      }
    }
  }

  // ----- what the scan finds -----

  /** The markers that are compared as a whole. */
  predicate StartSeen(b: seq<byte>, signed: bool, j: int) { IsStart(b, j) && Seen(signed, j + 1) }

  predicate EndSeen(b: seq<byte>, signed: bool, j: int) { IsEnd(b, j) && Seen(signed, j + 1) }

  /** The last start marker, and the last end marker, among the first `n` bytes, or -1. */
  function LastStart(b: seq<byte>, signed: bool, n: nat): int
    requires n <= |b|
  {
    if n < 2 then -1 else if StartSeen(b, signed, n - 2) then n - 2 else LastStart(b, signed, n - 1)
  }

  function LastEnd(b: seq<byte>, signed: bool, n: nat): int
    requires n <= |b|
  {
    if n < 2 then -1 else if EndSeen(b, signed, n - 2) then n - 2 else LastEnd(b, signed, n - 1)
  }

  /** The first end marker from `n` on that has a start marker in front of it, or -1. */
  function FirstClosing(b: seq<byte>, signed: bool, n: nat): (e: int)
    requires n <= |b|
    ensures -1 <= e < |b|
    decreases |b| - n
  {
    if n == |b| then -1
    else if EndSeen(b, signed, n) && LastStart(b, signed, n) >= 0 then n
    else FirstClosing(b, signed, n + 1)
  }

  function AtLeastZero(x: int): nat { if x < 0 then 0 else x }

  function BehindMarker(e: int): nat { if e < 0 then 0 else e + 2 }

  /** What there is to report, read off the markers: the first closed picture, or else the last markers. */
  function Report(b: seq<byte>, signed: bool): Marks {
    var e := FirstClosing(b, signed, 0);
    if e >= 0 then Marks(AtLeastZero(LastStart(b, signed, e)), e + 2, true, true)
    else
      var s := LastStart(b, signed, |b|);
      Marks(AtLeastZero(s), BehindMarker(LastEnd(b, signed, |b|)), s >= 0, false)
  }

  lemma {:induction false} LastStartIsLast(b: seq<byte>, signed: bool, n: nat)
    requires n <= |b|
    ensures var s := LastStart(b, signed, n); -1 <= s < n && (s >= 0 ==> StartSeen(b, signed, s) && s + 2 <= n)
    ensures forall j :: LastStart(b, signed, n) < j && j + 2 <= n ==> !StartSeen(b, signed, j)
    decreases n
  {
    if n >= 2 {
      LastStartIsLast(b, signed, n - 1);
    }
  }

  lemma {:induction false} LastEndIsLast(b: seq<byte>, signed: bool, n: nat)
    requires n <= |b|
    ensures var e := LastEnd(b, signed, n); -1 <= e < n && (e >= 0 ==> EndSeen(b, signed, e) && e + 2 <= n)
    ensures forall j :: LastEnd(b, signed, n) < j && j + 2 <= n ==> !EndSeen(b, signed, j)
    decreases n
  {
    if n >= 2 {
      LastEndIsLast(b, signed, n - 1);
    }
  }

  lemma {:induction false} FirstClosingIsFirst(b: seq<byte>, signed: bool, n: nat)
    requires n <= |b|
    ensures var e := FirstClosing(b, signed, n);
            e == -1 || (n <= e < |b| - 1 && EndSeen(b, signed, e) && LastStart(b, signed, e) >= 0)
    ensures var e := FirstClosing(b, signed, n);
            forall j :: n <= j < (if e < 0 then |b| else e) && EndSeen(b, signed, j) ==> LastStart(b, signed, j) < 0
    decreases |b| - n
  {
    if n < |b| {
      FirstClosingIsFirst(b, signed, n + 1);
    }
  }

  /** The marks after the first `n` bytes, while no picture is closed. */
  predicate Open(b: seq<byte>, signed: bool, n: nat, m: Marks)
    requires n <= |b|
  {
    m == Marks(AtLeastZero(LastStart(b, signed, n)), BehindMarker(LastEnd(b, signed, n)), LastStart(b, signed, n) >= 0, false)
  }

  lemma EndKeepsStart(b: seq<byte>, signed: bool, n: nat)
    requires 1 <= n < |b| && EndSeen(b, signed, n - 1)
    ensures LastStart(b, signed, n + 1) == LastStart(b, signed, n) == LastStart(b, signed, n - 1)
  {
  }

  /** From an open state on, the scan reports the first closing end, or the last markers. */
  lemma {:induction false} ScanFinds(b: seq<byte>, signed: bool, n: nat, m: Marks)
    requires 1 <= n <= |b| && Open(b, signed, n, m) && FirstClosing(b, signed, 0) == FirstClosing(b, signed, n - 1)
    ensures Scan(b, signed, n, m) == Report(b, signed)
    decreases |b| - n
  {
    if n < |b| {
      if EndSeen(b, signed, n - 1) {
        EndKeepsStart(b, signed, n);
      }
      var r := if Seen(signed, n) then Mark(m, b, n) else m;
      if !r.done {
        assert FirstClosing(b, signed, n - 1) == FirstClosing(b, signed, n);
        ScanFinds(b, signed, n + 1, r);
      }
    } else {
      assert FirstClosing(b, signed, n - 1) == -1;
    }
  }

  /** The scan, signed or not, reports exactly what the markers that it sees say. */
  lemma ScanReports(b: seq<byte>, signed: bool)
    ensures Scan(b, signed, 0, NONE) == Report(b, signed)
  {
    if |b| > 0 {
      assert Scan(b, signed, 0, NONE) == Scan(b, signed, 1, NONE);
      ScanFinds(b, signed, 1, NONE);
    }
  }

  predicate Marker(b: seq<byte>, j: int, second: byte) { 0 <= j && j + 1 < |b| && b[j] == 0xFF && b[j + 1] == second }

  /**
   * In plain terms: the scan stops at the first end marker that follows some start marker, and reports the
   * last start marker in front of it; with unsigned characters every marker is seen.
   */
  lemma ScanIsExact(b: seq<byte>, signed: bool)
    ensures var m := Scan(b, signed, 0, NONE);
            && (m.done <==> exists e, s :: s < e && StartSeen(b, signed, s) && EndSeen(b, signed, e))
            && (m.done ==>
                  && EndSeen(b, signed, m.end - 2) && StartSeen(b, signed, m.start) && m.start < m.end - 2
                  && (forall j :: m.start < j < m.end - 2 ==> !StartSeen(b, signed, j))
                  && (forall e, s :: s < e < m.end - 2 && StartSeen(b, signed, s) ==> !EndSeen(b, signed, e)))
    ensures forall j :: StartSeen(b, false, j) == Marker(b, j, 0xD8) && EndSeen(b, false, j) == Marker(b, j, 0xD9)
  {
    ScanReports(b, signed);
    FirstClosingIsFirst(b, signed, 0);
    var c := FirstClosing(b, signed, 0);
    if c >= 0 {
      LastStartIsLast(b, signed, c);
    }
    forall e, s | s < e && StartSeen(b, signed, s) && EndSeen(b, signed, e) ensures 0 <= c <= e {
      LastStartIsLast(b, signed, e);
    }
    hide Scan, FirstClosing, LastStart, LastEnd;
  }

  // ----- the picture -----

  datatype Result = Success(picture: seq<byte>) | Failure

  /** The checks behind the loop, and the `fread` that must not come up short. */
  function Picture(b: seq<byte>, m: Marks): Result {
    if m.end - m.start <= 0 || m.end - m.start > MAX_THM_SIZE || m.end - m.start >= |b| || m.end > |b| then Failure
    else Success(b[m.start..m.end])
  }

  /** A file without a start marker still yields a picture: everything up to its last end marker. */
  lemma NoStartIsNoObstacle(b: seq<byte>)
    requires forall j :: !IsStart(b, j)
    ensures var e := LastEnd(b, false, |b|);
            Picture(b, Scan(b, false, 0, NONE)) ==
              if e < 0 || e + 2 > 65536 || e + 2 >= |b| then Failure else Success(b[..e + 2])
  {
    ScanReports(b, false);
    FirstClosingIsFirst(b, false, 0);
    LastStartIsLast(b, false, |b|);
    LastEndIsLast(b, false, |b|);
    var c := FirstClosing(b, false, 0);
    if c >= 0 {
      LastStartIsLast(b, false, c);
    }
    hide Scan, FirstClosing, LastStart, LastEnd;
  }

  // ----- signed characters -----

  /** The markers that a scan of everything reports as start and as end, or -1. */
  function ReportedStart(b: seq<byte>): int {
    var e := FirstClosing(b, false, 0);
    LastStart(b, false, if e >= 0 then e else |b|)
  }

  function ReportedEnd(b: seq<byte>): int {
    var e := FirstClosing(b, false, 0);
    if e >= 0 then e else LastEnd(b, false, |b|)
  }

  /**
   * What comes out, from the marker that is reported as the start, or else from the beginning, up to the end
   * marker: nothing if that is empty, more than 64 KiB, or the whole file.
   */
  lemma PictureExactlyIf(b: seq<byte>)
    ensures var from, to := AtLeastZero(ReportedStart(b)), BehindMarker(ReportedEnd(b));
            Picture(b, Scan(b, false, 0, NONE)) ==
              if from < to <= |b| && to - from <= 65536 && to - from < |b| then Success(b[from..to]) else Failure
  {
    ScanReports(b, false);
    FirstClosingIsFirst(b, false, 0);
    LastEndIsLast(b, false, |b|);
    var c := FirstClosing(b, false, 0);
    if c >= 0 {
      LastStartIsLast(b, false, c);
    }
    hide Scan, FirstClosing, LastStart, LastEnd;
  }

  lemma {:induction false} FewerStarts(b: seq<byte>, n: nat)
    requires n <= |b|
    ensures var s := LastStart(b, false, n);
            LastStart(b, true, n) <= s && (LastStart(b, true, n) == s <==> s < 0 || Seen(true, s + 1))
    decreases n
  {
    if n >= 2 {
      FewerStarts(b, n - 1);
      LastStartIsLast(b, true, n - 1);
    }
  }

  lemma {:induction false} FewerEnds(b: seq<byte>, n: nat)
    requires n <= |b|
    ensures var e := LastEnd(b, false, n);
            LastEnd(b, true, n) <= e && (LastEnd(b, true, n) == e <==> e < 0 || Seen(true, e + 1))
    decreases n
  {
    if n >= 2 {
      FewerEnds(b, n - 1);
      LastEndIsLast(b, true, n - 1);
    }
  }

  /** What closes a picture for the signed scan closes one for the other, not later. */
  lemma ClosingIsLater(b: seq<byte>)
    ensures var e, f := FirstClosing(b, false, 0), FirstClosing(b, true, 0);
            && (e < 0 ==> f < 0) && (f >= 0 ==> 0 <= e <= f)
            && (e >= 0 && EndSeen(b, true, e) && LastStart(b, true, e) >= 0 ==> f == e)
  {
    FirstClosingIsFirst(b, false, 0);
    FirstClosingIsFirst(b, true, 0);
    var f := FirstClosing(b, true, 0);
    if f >= 0 {
      FewerStarts(b, f);
    }
    hide FirstClosing, LastStart;
  }

  /**
   * With signed characters the scan reports the same if and only if the two markers that are to be
   * reported are seen: neither ends at a byte whose number is a multiple of seven.
   */
  lemma SignedAgreesExactlyIf(b: seq<byte>)
    ensures Scan(b, true, 0, NONE) == Scan(b, false, 0, NONE) <==>
              && (ReportedStart(b) >= 0 ==> (ReportedStart(b) + 1) % 7 != 0)
              && (ReportedEnd(b) >= 0 ==> (ReportedEnd(b) + 1) % 7 != 0)
  {
    ScanReports(b, true);
    ScanReports(b, false);
    FirstClosingIsFirst(b, false, 0);
    FirstClosingIsFirst(b, true, 0);
    ClosingIsLater(b);
    var e := FirstClosing(b, false, 0);
    FewerStarts(b, if e >= 0 then e else |b|);
    FewerEnds(b, |b|);
    LastStartIsLast(b, true, if e >= 0 then e else |b|);
    LastStartIsLast(b, false, if e >= 0 then e else |b|);
    LastEndIsLast(b, true, |b|);
    LastEndIsLast(b, false, |b|);
    hide Scan, FirstClosing, LastStart, LastEnd;
  }

  /** No marker ends at byte `k`. */
  predicate Plain(b: seq<byte>, k: int) { !IsStart(b, k - 1) && !IsEnd(b, k - 1) }

  lemma {:induction false} ScanPasses(b: seq<byte>, signed: bool, i: nat, j: nat, m: Marks)
    requires i <= j <= |b| && !m.done
    requires forall k :: i <= k < j ==> Plain(b, k)
    ensures Scan(b, signed, i, m) == Scan(b, signed, j, m)
    decreases j - i
  {
    if i < j {
      assert Plain(b, i);
      ScanPasses(b, signed, i + 1, j, m);
    }
  }

  /** And it is another where the only start marker does: its second byte is compared with nothing. */
  lemma SignedMisses(b: seq<byte>)
    requires |b| == 11 && (forall k :: 0 <= k < 6 ==> b[k] == 0)
    requires b[6] == 0xFF && b[7] == 0xD8 && b[8] == 0xFF && b[9] == 0xD9 && b[10] == 0
    ensures Picture(b, Scan(b, false, 0, NONE)) == Success(b[6..10])
    ensures Picture(b, Scan(b, true, 0, NONE)) == Success(b[..10])
  {
    ScanPasses(b, false, 0, 7, NONE);
    ScanPasses(b, true, 0, 7, NONE);
    var m := Marks(6, 0, true, false);
    assert Mark(NONE, b, 7) == m && Seen(false, 7) && !Seen(true, 7);
    assert Scan(b, false, 7, NONE) == Scan(b, false, 8, m);
    assert Scan(b, true, 7, NONE) == Scan(b, true, 8, NONE);
    ScanPasses(b, false, 8, 9, m);
    ScanPasses(b, true, 8, 9, NONE);
    assert Mark(m, b, 9) == Marks(6, 10, true, true) && Mark(NONE, b, 9) == Marks(0, 10, false, false);
    assert Scan(b, false, 9, m) == Marks(6, 10, true, true);
    assert Scan(b, true, 9, NONE) == Scan(b, true, 10, Marks(0, 10, false, false));
    ScanPasses(b, true, 10, 11, Marks(0, 10, false, false));
  }
}
