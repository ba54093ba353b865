/**
 * The verifier of Sun disk labels: seven passes that join partitions which touch end to
 * start, in 32-bit sector numbers.
 */
module SunLabel {
  import opened MachineInt

  datatype Piece = Piece(start: nat, len: nat)

  predicate Words(t: seq<Piece>) { forall i :: 0 <= i < |t| ==> t[i].start < TWO32 && t[i].len < TWO32 }

  function End(p: Piece): nat { U32(p.start + p.len) }

  /** Entry `i` against an earlier entry `j` that is not empty. */
  function MergePair(t: seq<Piece>, i: nat, j: nat): (r: seq<Piece>)
    requires j < i < |t|
    ensures |r| == |t|
  {
    var p, q := t[i], t[j];
    if q.len == 0 then t
    else if q.start == End(p) then t[j := Piece(p.start, U32(q.len + p.len))][i := Piece(p.start, 0)]
    else if p.start == End(q) then t[j := Piece(q.start, U32(q.len + p.len))][i := Piece(p.start, 0)]
    else t
  }

  function Row(t: seq<Piece>, i: nat, j: nat): (r: seq<Piece>)
    requires j <= i < |t|
    ensures |r| == |t|
    decreases i - j
  {
    if j == i then t else Row(MergePair(t, i, j), i, j + 1)
  }

  function PassFrom(t: seq<Piece>, i: nat): (r: seq<Piece>)
    requires i <= |t|
    ensures |r| == |t|
    decreases |t| - i
  {
    if i == |t| then t else PassFrom(if t[i].len != 0 then Row(t, i, 0) else t, i + 1)
  }

  function Passes(t: seq<Piece>, k: nat): (r: seq<Piece>)
    ensures |r| == |t|
    decreases k
  {
    if k == 0 then t else Passes(PassFrom(t, 0), k - 1)
  }

  /** Neither entry begins where the other ends, or one is empty. */
  predicate Apart(t: seq<Piece>, i: nat, j: nat)
    requires i < |t| && j < |t|
  {
    t[i].len == 0 || t[j].len == 0 || (t[j].start != End(t[i]) && t[i].start != End(t[j]))
  }

  ghost predicate AllApart(t: seq<Piece>) { forall i, j :: 0 <= j < i < |t| ==> Apart(t, i, j) }

  /** The entries that are not empty. */
  ghost function Live(t: seq<Piece>): set<int> { set i | 0 <= i < |t| && t[i].len != 0 }

  // ----- every pass finishes, or joins two pieces -----

  lemma MergePairResult(t: seq<Piece>, i: nat, j: nat)
    requires Words(t) && j < i < |t|
    ensures var r := MergePair(t, i, j);
            Words(r) && if r == t then Apart(t, i, j) else Live(r) < Live(t)
  {
    var p, q, r := t[i], t[j], MergePair(t, i, j);
    hide Live;
    if p.len == 0 {
      assert r == t;
    } else if r != t {
      EmptiedIsNotLive(t, r[j], i, j);
    }
  }

  lemma EmptiedIsNotLive(t: seq<Piece>, m: Piece, i: nat, j: nat)
    requires j < i < |t| && t[i].len != 0 && t[j].len != 0
    ensures Live(t[j := m][i := Piece(t[i].start, 0)]) < Live(t)
  {
    var r := t[j := m][i := Piece(t[i].start, 0)];
    assert i in Live(t) && i !in Live(r);
  }

  lemma {:induction false} RowResult(t: seq<Piece>, i: nat, j: nat)
    requires Words(t) && j <= i < |t|
    ensures var r := Row(t, i, j);
            Words(r) && ((r == t && forall k :: j <= k < i ==> Apart(t, i, k)) || Live(r) < Live(t))
    decreases i - j
  {
    hide MergePair, Apart, Live;
    if j < i {
      MergePairResult(t, i, j);
      RowResult(MergePair(t, i, j), i, j + 1);
    }
  }

  lemma {:induction false} PassResult(t: seq<Piece>, i: nat)
    requires Words(t) && i <= |t|
    ensures var r := PassFrom(t, i);
            Words(r) && ((r == t && forall k, j :: 0 <= j < k && i <= k < |t| ==> Apart(t, k, j)) || Live(r) < Live(t))
    decreases |t| - i
  {
    hide Row, Live;
    if i < |t| {
      var s := if t[i].len != 0 then Row(t, i, 0) else t;
      RowResult(t, i, 0);
      PassResult(s, i + 1);
    }
  }

  lemma {:induction false} ApartStays(t: seq<Piece>, k: nat)
    requires PassFrom(t, 0) == t
    ensures Passes(t, k) == t
  {
    if k > 0 {
      ApartStays(t, k - 1);
    }
  }

  lemma SmallerSet(a: set<int>, b: set<int>)
    requires a < b
    ensures |a| < |b|
  {
    assert b == a + (b - a) && b - a != {};
  }

  lemma SubsetSize(a: set<int>, b: set<int>)
    requires a <= b
    ensures |a| <= |b|
  {
    assert b == a + (b - a);
  }

  lemma {:induction false} PassesResult(t: seq<Piece>, k: nat)
    requires Words(t)
    ensures var r := Passes(t, k); Words(r) && (AllApart(r) || |Live(r)| + k <= |Live(t)|)
    decreases k
  {
    hide PassFrom, Live, Apart;
    if k > 0 {
      PassResult(t, 0);
      var s := PassFrom(t, 0);
      if s == t && AllApart(t) {
        ApartStays(t, k - 1);
      } else {
        SmallerSet(Live(s), Live(t));
        PassesResult(s, k - 1);
      }
    }
  }

  function Indices(n: nat): (s: set<int>)
    ensures forall i :: 0 <= i < n ==> i in s
    ensures |s| <= n
  {
    if n == 0 then {} else Indices(n - 1) + {n - 1}
  }

  lemma LiveBound(t: seq<Piece>)
    ensures |Live(t)| <= |t|
  {
    SubsetSize(Live(t), Indices(|t|));
  }

  lemma OnePieceIsApart(t: seq<Piece>)
    requires |Live(t)| <= 1
    ensures AllApart(t)
  {
    forall i, j | 0 <= j < i < |t| ensures Apart(t, i, j) {
      if t[i].len != 0 && t[j].len != 0 {
        assert i in Live(t) && j in Live(t);
        SubsetSize({i, j}, Live(t));
      }
    }
  }

  /**
   * Seven passes over the eight partitions end with no two pieces touching, for every table;
   * in general one pass fewer than there are entries is enough.
   */
  lemma PassesReachFixpoint(t: seq<Piece>)
    requires Words(t) && |t| >= 1
    ensures AllApart(Passes(t, |t| - 1))
    ensures |t| == 8 ==> AllApart(Passes(t, 7))
  {
    PassesResult(t, |t| - 1);
    LiveBound(t);
    var r := Passes(t, |t| - 1);
    if |Live(r)| <= 1 {
      OnePieceIsApart(r);
    }
    hide *;
  }

  // ----- what a merge keeps -----

  /** No partition ends beyond the last 32-bit sector number. */
  predicate OnDisk(t: seq<Piece>) { forall i :: 0 <= i < |t| ==> t[i].start + t[i].len < TWO32 }

  predicate Contains(p: Piece, x: int) { p.start <= x < p.start + p.len }

  ghost predicate Covers(t: seq<Piece>, x: int) { exists i :: 0 <= i < |t| && Contains(t[i], x) }

  function Total(t: seq<Piece>): nat { if t == [] then 0 else t[0].len + Total(t[1..]) }

  lemma {:induction false} TotalOfUpdate(t: seq<Piece>, i: nat, p: Piece)
    requires i < |t|
    ensures Total(t[i := p]) == Total(t) - t[i].len + p.len
  {
    if i == 0 {
      assert t[i := p][1..] == t[1..];
    } else {
      assert t[i := p][1..] == t[1..][i - 1 := p];
      TotalOfUpdate(t[1..], i - 1, p);
    }
  }

  lemma MergePairKeepsSectors(t: seq<Piece>, i: nat, j: nat, x: int)
    requires OnDisk(t) && j < i < |t|
    ensures var r := MergePair(t, i, j); OnDisk(r) && Total(r) == Total(t) && (Covers(r, x) <==> Covers(t, x))
  {
    var p, q, r := t[i], t[j], MergePair(t, i, j);
    MergedPiece(t, i, j, x);
    hide MergePair, Covers, Contains, End, U32;
    if r != t {
      var m := r[j];
      TotalOfUpdate(t, j, m);
      TotalOfUpdate(t[j := m], i, Piece(p.start, 0));
      hide Total;
      MergedCover(t, r, i, j, x);
    }
  }

  lemma MergedPiece(t: seq<Piece>, i: nat, j: nat, x: int)
    requires OnDisk(t) && j < i < |t|
    ensures var p, q, r := t[i], t[j], MergePair(t, i, j);
            r == t || (r == t[j := r[j]][i := Piece(p.start, 0)] && r[j].len == q.len + p.len && r[j].start + r[j].len < TWO32
                       && (Contains(r[j], x) <==> Contains(p, x) || Contains(q, x)))
  {
    assert t[i].start + t[i].len < TWO32 && t[j].start + t[j].len < TWO32;
  }

  lemma MergedCover(t: seq<Piece>, r: seq<Piece>, i: nat, j: nat, x: int)
    requires j < i < |t| == |r| && r == t[j := r[j]][i := Piece(t[i].start, 0)]
    requires Contains(r[j], x) <==> Contains(t[i], x) || Contains(t[j], x)
    ensures Covers(r, x) <==> Covers(t, x)
  {
    hide Contains;
    EmptyContainsNothing(r[i], x);
    if Covers(t, x) {
      var k :| 0 <= k < |t| && Contains(t[k], x);
      assert Contains(r[if k == i then j else k], x);
    }
    if Covers(r, x) {
      var k :| 0 <= k < |r| && Contains(r[k], x);
      assert k != i;
      if k != j { assert Contains(t[k], x); }
    }
  }

  lemma EmptyContainsNothing(p: Piece, x: int)
    requires p.len == 0
    ensures !Contains(p, x)
  {
  }

  lemma {:induction false} RowKeepsSectors(t: seq<Piece>, i: nat, j: nat, x: int)
    requires OnDisk(t) && j <= i < |t|
    ensures var r := Row(t, i, j); OnDisk(r) && Total(r) == Total(t) && (Covers(r, x) <==> Covers(t, x))
    decreases i - j
  {
    hide MergePair, Covers, Total, OnDisk;
    if j < i {
      MergePairKeepsSectors(t, i, j, x);
      RowKeepsSectors(MergePair(t, i, j), i, j + 1, x);
    }
  }

  lemma {:induction false} PassKeepsSectors(t: seq<Piece>, i: nat, x: int)
    requires OnDisk(t) && i <= |t|
    ensures var r := PassFrom(t, i); OnDisk(r) && Total(r) == Total(t) && (Covers(r, x) <==> Covers(t, x))
    decreases |t| - i
  {
    hide Row, Covers, Total, OnDisk;
    if i < |t| {
      RowKeepsSectors(t, i, 0, x);
      PassKeepsSectors(if t[i].len != 0 then Row(t, i, 0) else t, i + 1, x);
    }
  }

  /** The passes change neither which sectors are covered nor how many sectors the partitions have. */
  lemma {:induction false} PassesKeepSectors(t: seq<Piece>, k: nat, x: int)
    requires OnDisk(t)
    ensures var r := Passes(t, k); OnDisk(r) && Total(r) == Total(t) && (Covers(r, x) <==> Covers(t, x))
    decreases k
  {
    hide PassFrom, Covers, Total, OnDisk;
    if k > 0 {
      PassKeepsSectors(t, 0, x);
      PassesKeepSectors(PassFrom(t, 0), k - 1, x);
    }
  }

  /**
   * Beyond the last 32-bit sector number a merge moves sectors: a partition that ends there seems to touch sector
   * 0.
   */
  lemma WrappedPiecesMove()
    ensures var t := [Piece(0, 5), Piece(TWO32 - 10, 10)];
            var r := MergePair(t, 1, 0);
            r == [Piece(TWO32 - 10, 15), Piece(TWO32 - 10, 0)] && Covers(t, 0) && !Covers(r, 0)
  {
    var t := [Piece(0, 5), Piece(TWO32 - 10, 10)];
    assert End(t[1]) == 0;
    assert Contains(t[0], 0);
  }

  ghost predicate SameSectors(t: seq<Piece>, r: seq<Piece>) { forall x :: Covers(r, x) <==> Covers(t, x) }

  /** Two partitions that touch when their ends are cut to 32 bits. */
  predicate Touch(p: Piece, q: Piece) { q.start == End(p) || p.start == End(q) }

  /** The same, in full. */
  predicate Adjoin(p: Piece, q: Piece) {
    (q.start == p.start + p.len || p.start == q.start + q.len) && p.len + q.len < TWO32
  }

  /**
   * A merge of two partitions keeps the sectors they cover if and only if they touch without wrap-around, or not
   * at all.
   */
  lemma MergeKeepsSectorsExactlyIf(p: Piece, q: Piece)
    requires Words([q, p]) && p.len > 0 && q.len > 0
    ensures SameSectors([q, p], MergePair([q, p], 1, 0)) <==> !Touch(p, q) || Adjoin(p, q)
  {
    var t, r := [q, p], MergePair([q, p], 1, 0);
    if !Touch(p, q) {
      assert r == t;
    } else {
      var m := r[0];
      assert r == [m, Piece(p.start, 0)] && m.len == U32(q.len + p.len);
      forall x ensures Covers(r, x) <==> Contains(m, x) { CoversOfTwo(m, r[1], x); }
      forall x ensures Covers(t, x) <==> Contains(q, x) || Contains(p, x) { CoversOfTwo(q, p, x); }
      hide Covers;
      if Adjoin(p, q) {
      } else {
        assert Covers(t, p.start) && Covers(t, q.start);
        assert Covers(t, p.start + p.len - 1) && Covers(t, q.start + q.len - 1);
      }
    }
  }

  lemma CoversOfTwo(a: Piece, b: Piece, x: int)
    ensures Covers([a, b], x) <==> Contains(a, x) || Contains(b, x)
  {
    assert [a, b][0] == a && [a, b][1] == b;
  }

  /** How many partitions hold a sector. */
  function Count(t: seq<Piece>, x: int): nat {
    if t == [] then 0 else (if Contains(t[0], x) then 1 else 0) + Count(t[1..], x)
  }

  lemma {:induction false} CountOfUpdate(t: seq<Piece>, i: nat, p: Piece, x: int)
    requires i < |t|
    ensures Count(t[i := p], x) == Count(t, x) - (if Contains(t[i], x) then 1 else 0) + (if Contains(p, x) then 1 else 0)
  {
    hide Contains;
    if i == 0 {
      assert t[i := p][1..] == t[1..];
    } else {
      assert t[i := p][1..] == t[1..][i - 1 := p];
      CountOfUpdate(t[1..], i - 1, p, x);
    }
  }

  ghost predicate SameCounts(t: seq<Piece>, r: seq<Piece>) { forall x :: Count(r, x) == Count(t, x) }

  /** A merge replaces two pieces by one, so it changes the counts by what these three hold. */
  lemma CountOfMerge(t: seq<Piece>, i: nat, j: nat, x: int)
    requires j < i < |t| && t[i].len > 0 && t[j].len > 0 && Touch(t[i], t[j])
    ensures var r := MergePair(t, i, j);
            Count(r, x) == Count(t, x) - (if Contains(t[i], x) then 1 else 0) - (if Contains(t[j], x) then 1 else 0)
                                       + (if Contains(r[j], x) then 1 else 0)
  {
    var r := MergePair(t, i, j);
    var empty := Piece(t[i].start, 0);
    assert r == t[j := r[j]][i := empty];
    CountOfUpdate(t, j, r[j], x);
    CountOfUpdate(t[j := r[j]], i, empty, x);
    EmptyContainsNothing(empty, x);
    hide Contains, MergePair, Count;
  }

  /**
   * Inside any table: a merge keeps how many partitions hold each sector if and only if the two touch
   * without wrap-around, or are not merged at all.
   */
  lemma MergeKeepsCountsExactlyIf(t: seq<Piece>, i: nat, j: nat)
    requires Words(t) && j < i < |t| && t[i].len > 0 && t[j].len > 0
    ensures SameCounts(t, MergePair(t, i, j)) <==> !Touch(t[i], t[j]) || Adjoin(t[i], t[j])
  {
    var p, q, r := t[i], t[j], MergePair(t, i, j);
    if !Touch(p, q) {
      assert r == t;
    } else {
      var m := r[j];
      assert m.len == U32(q.len + p.len) && (m.start == p.start || m.start == q.start);
      assert m.start == if q.start == End(p) then p.start else q.start;
      forall x ensures Count(r, x) == Count(t, x) - (if Contains(p, x) then 1 else 0) - (if Contains(q, x) then 1 else 0)
                                                  + (if Contains(m, x) then 1 else 0) {
        CountOfMerge(t, i, j, x);
      }
      hide MergePair, Count;
      if Adjoin(p, q) {
        AdjoinedHolds(p, q, m);
      } else {
        var x := WrappedMisses(p, q, m);
        assert Count(r, x) != Count(t, x);
      }
    }
  }

  lemma AdjoinedHolds(p: Piece, q: Piece, m: Piece)
    requires Adjoin(p, q) && Touch(p, q) && p.len > 0 && q.len > 0 && p.start < TWO32 && q.start < TWO32
    requires m == Piece(if q.start == End(p) then p.start else q.start, U32(q.len + p.len))
    ensures forall x :: (if Contains(m, x) then 1 else 0) == (if Contains(p, x) then 1 else 0) + (if Contains(q, x) then 1 else 0)
  {
  }

  /** A sector that the merge gets wrong. */
  lemma WrappedMisses(p: Piece, q: Piece, m: Piece) returns (x: int)
    requires !Adjoin(p, q) && Touch(p, q) && Words([p, q]) && p.len > 0 && q.len > 0
    requires m == Piece(if q.start == End(p) then p.start else q.start, U32(q.len + p.len))
    ensures (if Contains(m, x) then 1 else 0) != (if Contains(p, x) then 1 else 0) + (if Contains(q, x) then 1 else 0)
  {
    assert [p, q][0] == p && [p, q][1] == q;
    var first, second := if q.start == End(p) then p else q, if q.start == End(p) then q else p;
    if second.start == first.start + first.len {
      x := second.start + second.len - 1;
    } else {
      x := second.start;
    }
  }

  // ----- the free window that `fetch_sun` reports -----

  datatype Window = Window(start: nat, stop: nat, continuous: bool)

  /** One partition of the loop of `fetch_sun`; the empty ones and the whole disk are skipped there. */
  function Narrowed(w: Window, p: Piece): Window {
    if p.len == 0 || !w.continuous then w
    else if p.start == w.start then w.(start := U32(w.start + p.len))
    else if End(p) >= w.stop then w.(stop := p.start)
    else w.(continuous := false)
  }

  function Fetch(t: seq<Piece>, total: nat): Window {
    if t == [] then Window(0, total, true) else Narrowed(Fetch(t[..|t| - 1], total), t[|t| - 1])
  }

  ghost predicate NoneShared(t: seq<Piece>) {
    forall i, j, x :: 0 <= i < j < |t| && Contains(t[i], x) ==> !Contains(t[j], x)
  }

  predicate UpTo(t: seq<Piece>, total: nat) { forall i :: 0 <= i < |t| ==> t[i].start + t[i].len <= total }

  lemma CoversByLast(t: seq<Piece>, x: int)
    requires t != []
    ensures var n := |t| - 1; Covers(t, x) <==> Covers(t[..n], x) || Contains(t[n], x)
  {
    hide Contains;
    var n := |t| - 1;
    if Covers(t[..n], x) {
      var i :| 0 <= i < n && Contains(t[..n][i], x);
      assert Contains(t[i], x);
    }
    if Covers(t, x) && !Contains(t[n], x) {
      var i :| 0 <= i < |t| && Contains(t[i], x);
      assert Contains(t[..n][i], x);
    }
  }

  lemma LastIsNew(t: seq<Piece>, x: int)
    requires t != [] && NoneShared(t) && Contains(t[|t| - 1], x)
    ensures !Covers(t[..|t| - 1], x)
  {
    hide Contains;
    var n := |t| - 1;
    forall i | 0 <= i < n ensures !Contains(t[..n][i], x) {
      assert t[..n][i] == t[i];
    }
  }

  /** While the window is continuous it is exactly the sectors that no partition covers. */
  ghost predicate Exact(t: seq<Piece>, total: nat, w: Window) {
    w.start <= w.stop <= total && forall x :: 0 <= x < total ==> (Covers(t, x) <==> !(w.start <= x < w.stop))
  }

  lemma NewPieceIsInWindow(t: seq<Piece>, total: nat, w: Window)
    requires t != [] && NoneShared(t) && UpTo(t, total) && t[|t| - 1].len > 0
    requires Exact(t[..|t| - 1], total, w)
    ensures var p := t[|t| - 1]; w.start <= p.start && p.start + p.len <= w.stop
  {
    var p := t[|t| - 1];
    assert Contains(p, p.start) && Contains(p, p.start + p.len - 1);
    LastIsNew(t, p.start);
    LastIsNew(t, p.start + p.len - 1);
    hide Covers, NoneShared;
  }

  lemma NarrowedIsExact(t: seq<Piece>, total: nat, w: Window)
    requires t != [] && NoneShared(t) && UpTo(t, total) && total < TWO32
    requires Exact(t[..|t| - 1], total, w) && w.continuous && Narrowed(w, t[|t| - 1]).continuous
    ensures Exact(t, total, Narrowed(w, t[|t| - 1]))
  {
    var p := t[|t| - 1];
    if p.len > 0 {
      NewPieceIsInWindow(t, total, w);
    }
    var v := Narrowed(w, p);
    forall x | 0 <= x < total ensures Covers(t, x) <==> !(v.start <= x < v.stop) {
      CoversByLast(t, x);
    }
  }

  /**
   * For disjoint partitions on the disk: as long as they fill it from both ends without a second gap,
   * `fetch_sun` reports exactly the sectors that are free.
   */
  lemma {:induction false} FetchIsExact(t: seq<Piece>, total: nat)
    requires NoneShared(t) && UpTo(t, total) && total < TWO32 && Fetch(t, total).continuous
    ensures Exact(t, total, Fetch(t, total))
    decreases |t|
  {
    if t != [] {
      var rest := t[..|t| - 1];
      FirstPiecesAlone(t, total);
      FetchIsExact(rest, total);
      NarrowedIsExact(t, total, Fetch(rest, total));
      hide Exact, Narrowed;
    }
  }

  lemma FirstPiecesAlone(t: seq<Piece>, total: nat)
    requires t != [] && NoneShared(t) && UpTo(t, total)
    ensures NoneShared(t[..|t| - 1]) && UpTo(t[..|t| - 1], total)
  {
    hide Contains;
    var r := t[..|t| - 1];
    forall i, j, x | 0 <= i < j < |r| && Contains(r[i], x) ensures !Contains(r[j], x) {
      assert Contains(t[i], x);
    }
  }

  ghost predicate FreeBelow(t: seq<Piece>, x: int) { exists y :: 0 <= y < x && !Covers(t, y) }

  ghost predicate FreeFrom(t: seq<Piece>, x: int, total: nat) { exists y :: x <= y < total && !Covers(t, y) }

  /** With the first `n` and this one on the disk, sectors are free on both sides of partition `n`. */
  ghost predicate Splits(t: seq<Piece>, n: nat, total: nat)
    requires n < |t|
  {
    t[n].len > 0 && FreeBelow(t[..n + 1], t[n].start) && FreeFrom(t[..n + 1], t[n].start + t[n].len, total)
  }

  lemma SplitsExactlyIf(t: seq<Piece>, total: nat, w: Window)
    requires t != [] && NoneShared(t) && UpTo(t, total) && total < TWO32 && Exact(t[..|t| - 1], total, w) && w.continuous
    ensures Narrowed(w, t[|t| - 1]).continuous <==> !Splits(t, |t| - 1, total)
  {
    var n := |t| - 1;
    var p := t[n];
    assert t[..n + 1] == t;
    if p.len > 0 {
      NewPieceIsInWindow(t, total, w);
      forall x ensures Covers(t, x) <==> Covers(t[..n], x) || Contains(p, x) { CoversByLast(t, x); }
      hide Covers, NoneShared, UpTo;
      assert FreeBelow(t, p.start) <==> w.start < p.start by {
        if w.start < p.start { assert !Covers(t, w.start); }
      }
      assert FreeFrom(t, p.start + p.len, total) <==> p.start + p.len < w.stop by {
        if p.start + p.len < w.stop { assert !Covers(t, p.start + p.len); }
      }
    }
  }

  /** The window stays continuous if and only if no partition has free sectors on both sides when it is read. */
  lemma {:induction false} ContinuousExactlyIf(t: seq<Piece>, total: nat)
    requires NoneShared(t) && UpTo(t, total) && total < TWO32
    ensures Fetch(t, total).continuous <==> forall n :: 0 <= n < |t| ==> !Splits(t, n, total)
    decreases |t|
  {
    if t != [] {
      var m := |t| - 1;
      var rest := t[..m];
      FirstPiecesAlone(t, total);
      ContinuousExactlyIf(rest, total);
      forall n | 0 <= n < m ensures Splits(t, n, total) <==> Splits(rest, n, total) {
        assert rest[..n + 1] == t[..n + 1];
      }
      if Fetch(rest, total).continuous {
        FetchIsExact(rest, total);
        SplitsExactlyIf(t, total, Fetch(rest, total));
      }
      hide Splits, Exact, NoneShared, UpTo;
    }
  }

  // ----- the loops -----

  ghost function Table(starts: seq<nat>, lens: seq<nat>): (t: seq<Piece>)
    requires |starts| == |lens|
    ensures |t| == |starts|
  {
    seq(|starts|, i requires 0 <= i < |starts| => Piece(starts[i], lens[i]))
  }

  /** The innermost step of `verify_sun`. */
  method Join(starts: array<nat>, lens: array<nat>, i: nat, j: nat)
    requires starts.Length == lens.Length && starts != lens && j < i < starts.Length
    modifies starts, lens
    ensures Table(starts[..], lens[..]) == MergePair(old(Table(starts[..], lens[..])), i, j)
  {
    if lens[j] != 0 {
      if starts[j] == U32(starts[i] + lens[i]) {
        starts[j] := starts[i];
        lens[j] := U32(lens[j] + lens[i]);
        lens[i] := 0;
      } else if starts[i] == U32(starts[j] + lens[j]) {
        lens[j] := U32(lens[j] + lens[i]);
        lens[i] := 0;
      }
    }
  }

  /** The merge passes of `verify_sun`, seven for a label of eight partitions. */
  method MergePasses(starts: array<nat>, lens: array<nat>, passes: nat)
    requires starts.Length == lens.Length && starts != lens
    modifies starts, lens
    ensures Table(starts[..], lens[..]) == Passes(old(Table(starts[..], lens[..])), passes)
  {
    hide MergePair, Row, PassFrom, Passes;
    ghost var goal := Passes(Table(starts[..], lens[..]), passes);
    var k := 0;
    while k < passes
      invariant k <= passes && goal == Passes(Table(starts[..], lens[..]), passes - k)
    {
      PassesStep(Table(starts[..], lens[..]), passes - k);
      MergePass(starts, lens);
      k := k + 1;
    }
    PassesStep(Table(starts[..], lens[..]), 0);
  }

  lemma PassesStep(t: seq<Piece>, k: nat)
    ensures Passes(t, k) == if k == 0 then t else Passes(PassFrom(t, 0), k - 1)
  {
  }

  method MergePass(starts: array<nat>, lens: array<nat>)
    requires starts.Length == lens.Length && starts != lens
    modifies starts, lens
    ensures Table(starts[..], lens[..]) == PassFrom(old(Table(starts[..], lens[..])), 0)
  {
    hide MergePair, Row;
    ghost var goal := PassFrom(Table(starts[..], lens[..]), 0);
    var i := 0;
    while i < starts.Length
      invariant i <= starts.Length && goal == PassFrom(Table(starts[..], lens[..]), i)
    {
      if lens[i] != 0 {
        MergeRow(starts, lens, i);
      }
      i := i + 1;
    }
  }

  method MergeRow(starts: array<nat>, lens: array<nat>, i: nat)
    requires starts.Length == lens.Length && starts != lens && i < starts.Length
    modifies starts, lens
    ensures Table(starts[..], lens[..]) == Row(old(Table(starts[..], lens[..])), i, 0)
  {
    hide MergePair;
    ghost var goal := Row(Table(starts[..], lens[..]), i, 0);
    var j := 0;
    while j < i
      invariant j <= i && goal == Row(Table(starts[..], lens[..]), i, j)
    {
      Join(starts, lens, i, j);
      j := j + 1;
    }
  }

  /** `fetch_sun`, given the partitions that count */
  method FetchWindow(starts: array<nat>, lens: array<nat>, total: nat) returns (start: nat, stop: nat, continuous: bool)
    requires starts.Length == lens.Length
    ensures Window(start, stop, continuous) == Fetch(Table(starts[..], lens[..]), total)
  {
    start, stop, continuous := 0, total, true;
    var i := 0;
    ghost var t := Table(starts[..], lens[..]);
    while i < starts.Length
      invariant i <= starts.Length && Window(start, stop, continuous) == Fetch(t[..i], total)
    {
      assert t[..i + 1][..i] == t[..i];
      if lens[i] != 0 && continuous {
        if starts[i] == start {
          start := U32(start + lens[i]);
        } else if U32(starts[i] + lens[i]) >= stop {
          stop := starts[i];
        } else {
          continuous := false;
        }
      }
      i := i + 1;
    }
    assert t[..i] == t;
  }
}
