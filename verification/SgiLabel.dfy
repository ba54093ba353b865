/**
 * The verifier of SGI disk labels: one scan over the partitions in order of their starts
 * looks for overlaps and collects the free blocks. Sector numbers are below 2^31.
 */
module SgiLabel {
  const ENTIRE_DISK := 6
  const SLOTS: nat := 17

  datatype Part = Part(start: nat, len: nat, sysid: int)

  function End(p: Part): nat { p.start + p.len }

  predicate Contains(p: Part, x: int) { p.start <= x < End(p) }

  /** What `compare_start` calls in order: by start, the larger one first. */
  predicate InOrder(p: Part, q: Part) { p.start < q.start || (p.start == q.start && p.len >= q.len) }

  ghost predicate Sorted(parts: seq<Part>) { forall i, j :: 0 <= i < j < |parts| ==> InOrder(parts[i], parts[j]) }

  lemma SortedCons(p: Part, rest: seq<Part>)
    requires Sorted(rest) && forall i :: 0 <= i < |rest| ==> InOrder(p, rest[i])
    ensures Sorted([p] + rest)
  {
  }

  /** Where a partition goes in a sorted table. */
  lemma {:induction false} Inserted(parts: seq<Part>, p: Part) returns (sorted: seq<Part>)
    requires Sorted(parts)
    ensures Sorted(sorted) && multiset(sorted) == multiset(parts) + multiset{p}
    decreases |parts|
  {
    if parts == [] || InOrder(p, parts[0]) {
      sorted := [p] + parts;
      SortedCons(p, parts);
    } else {
      var head, tail := parts[0], parts[1..];
      assert parts == [head] + tail && forall i :: 0 <= i < |tail| ==> tail[i] == parts[i + 1] && InOrder(head, tail[i]);
      var rest := Inserted(tail, p);
      sorted := [head] + rest;
      hide Sorted, InOrder;
      forall j | 0 <= j < |rest| ensures InOrder(head, rest[j]) {
        InsertedFrom(tail, p, rest, j);
        assert InOrder(head, p);
      }
      SortedCons(head, rest);
    }
  }

  lemma InsertedFrom(parts: seq<Part>, p: Part, sorted: seq<Part>, j: nat)
    requires multiset(sorted) == multiset(parts) + multiset{p} && j < |sorted|
    ensures sorted[j] == p || exists i :: 0 <= i < |parts| && parts[i] == sorted[j]
  {
    assert sorted[j] in multiset(sorted);
    hide Sorted;
  }

  /** Every table can be sorted. */
  lemma {:induction false} CanBeSorted(parts: seq<Part>) returns (sorted: seq<Part>)
    ensures Sorted(sorted) && multiset(sorted) == multiset(parts)
    decreases |parts|
  {
    if parts == [] {
      sorted := [];
    } else {
      var rest := CanBeSorted(parts[1..]);
      sorted := Inserted(rest, parts[0]);
      assert parts == [parts[0]] + parts[1..];
    }
  }

  /** A stretch of free blocks, `first` to `last` exclusive. */
  datatype Gap = Gap(first: nat, last: nat)

  datatype State = State(start: nat, gap: int, overlap: bool, free: seq<Gap>)

  /** One turn of the loop of `verify_sgi`. */
  function Step(s: State, p: Part): State {
    if p.sysid == ENTIRE_DISK then s
    else if s.start > p.start then State(End(p), if s.gap > 0 then -s.gap else if s.gap == 0 then -1 else s.gap, true, s.free)
    else if s.start < p.start then State(End(p), s.gap + (p.start - s.start), s.overlap, s.free + [Gap(s.start, p.start)])
    else s.(start := End(p))
  }

  function Scan(parts: seq<Part>, s: State): State
    decreases |parts|
  {
    if parts == [] then s else Scan(parts[1..], Step(s, parts[0]))
  }

  /** The gap at the end of the disk. */
  function Close(s: State, last: nat): State {
    if s.start < last then s.(gap := s.gap + (last - s.start), free := s.free + [Gap(s.start, last)]) else s
  }

  const NOTHING := State(0, 0, false, [])

  /** `verify_sgi`, given the partitions of non-zero length as `qsort` may order them. */
  function Verify(parts: seq<Part>, disk: nat): State {
    if parts == [] then State(0, disk, false, [])
    else Close(Scan(parts[1..], NOTHING), if parts[0].sysid == ENTIRE_DISK then parts[0].len else disk)
  }

  /** The partitions the scan looks at. */
  function Others(parts: seq<Part>): seq<Part> {
    if parts == [] then [] else (if parts[0].sysid == ENTIRE_DISK then [] else [parts[0]]) + Others(parts[1..])
  }

  lemma {:induction false} ScanSkips(parts: seq<Part>, s: State)
    ensures Scan(Others(parts), s) == Scan(parts, s)
    decreases |parts|
  {
    if parts != [] {
      ScanSkips(parts[1..], Step(s, parts[0]));
      if parts[0].sysid == ENTIRE_DISK {
        assert Others(parts) == Others(parts[1..]);
      } else {
        assert Others(parts)[1..] == Others(parts[1..]);
      }
    }
  }

  lemma {:induction false} OthersAreReal(parts: seq<Part>)
    ensures |Others(parts)| <= |parts|
    ensures forall p :: p in Others(parts) <==> p in parts && p.sysid != 6
  {
    if parts != [] {
      OthersAreReal(parts[1..]);
      assert parts == [parts[0]] + parts[1..];
    }
  }

  lemma {:induction false} OthersAreSorted(parts: seq<Part>)
    requires Sorted(parts)
    ensures Sorted(Others(parts))
  {
    if parts != [] {
      OthersAreSorted(parts[1..]);
      OthersAreReal(parts[1..]);
      var rest := Others(parts[1..]);
      forall j | 0 <= j < |rest| ensures InOrder(parts[0], rest[j]) {
        var k :| 0 <= k < |parts[1..]| && parts[1..][k] == rest[j];
        assert rest[j] == parts[k + 1];
      }
    }
  }

  /** Partitions on the disk, none of them empty or a second whole-disk entry. */
  predicate Inside(parts: seq<Part>, last: nat) {
    forall i :: 0 <= i < |parts| ==> parts[i].len > 0 && End(parts[i]) <= last && parts[i].sysid != ENTIRE_DISK
  }

  ghost predicate Disjoint(parts: seq<Part>) {
    forall i, j :: 0 <= i < j < |parts| ==> End(parts[i]) <= parts[j].start || End(parts[j]) <= parts[i].start
  }

  /** Each begins no earlier than the one before it ends. */
  predicate Chain(parts: seq<Part>, from: nat)
    decreases |parts|
  {
    parts == [] || (from <= parts[0].start && Chain(parts[1..], End(parts[0])))
  }

  lemma {:induction false} ScanSeesOverlap(parts: seq<Part>, s: State, last: nat)
    requires Inside(parts, last)
    ensures Scan(parts, s).overlap <==> s.overlap || !Chain(parts, s.start)
    decreases |parts|
  {
    if parts != [] {
      ScanSeesOverlap(parts[1..], Step(s, parts[0]), last);
    }
  }

  lemma {:induction false} ChainStarts(parts: seq<Part>, from: nat, i: nat)
    requires Chain(parts, from) && i < |parts|
    ensures from <= parts[i].start
    decreases |parts|
  {
    if i > 0 {
      ChainStarts(parts[1..], End(parts[0]), i - 1);
    }
  }

  lemma {:induction false} ChainIsDisjoint(parts: seq<Part>, from: nat)
    requires Chain(parts, from)
    ensures Disjoint(parts)
    decreases |parts|
  {
    if parts != [] {
      var rest := parts[1..];
      ChainIsDisjoint(rest, End(parts[0]));
      forall j | 1 <= j < |parts| ensures End(parts[0]) <= parts[j].start {
        ChainStarts(rest, End(parts[0]), j - 1);
      }
      assert forall i :: 1 <= i < |parts| ==> parts[i] == rest[i - 1];
    }
  }

  lemma {:induction false} DisjointIsChain(parts: seq<Part>, from: nat, last: nat)
    requires Sorted(parts) && Inside(parts, last) && Disjoint(parts)
    requires parts != [] ==> from <= parts[0].start
    ensures Chain(parts, from)
    decreases |parts|
  {
    if |parts| > 1 {
      assert InOrder(parts[0], parts[1]);
      DisjointIsChain(parts[1..], End(parts[0]), last);
    }
  }

  /**
   * The overlap branch is taken if and only if two partitions behind the first entry share a sector. They lie in
   * front of `last`: the end of the whole-disk entry if that sorts first, and of the disk if there is none.
   */
  lemma OverlapIsFoundExactlyIf(parts: seq<Part>, disk: nat, last: nat)
    requires Sorted(parts) && parts != [] && last == (if parts[0].sysid == ENTIRE_DISK then parts[0].len else disk)
    requires Inside(Others(parts[1..]), last)
    ensures Verify(parts, disk).overlap <==> !Disjoint(Others(parts[1..]))
  {
    var others := Others(parts[1..]);
    OthersAreSorted(parts[1..]);
    ScanSkips(parts[1..], NOTHING);
    ScanSeesOverlap(others, NOTHING, last);
    if Chain(others, 0) {
      ChainIsDisjoint(others, 0);
    } else if Disjoint(others) {
      DisjointIsChain(others, 0, last);
    }
  }

  // ----- the free list -----

  function Sum(parts: seq<Part>): nat { if parts == [] then 0 else parts[0].len + Sum(parts[1..]) }

  function EndOf(parts: seq<Part>, from: nat): nat
    decreases |parts|
  {
    if parts == [] then from else EndOf(parts[1..], End(parts[0]))
  }

  function GapBefore(from: nat, p: Part): seq<Gap> { if from < p.start then [Gap(from, p.start)] else [] }

  function Gaps(parts: seq<Part>, from: nat): seq<Gap>
    decreases |parts|
  {
    if parts == [] then [] else GapBefore(from, parts[0]) + Gaps(parts[1..], End(parts[0]))
  }

  lemma StepOfChain(s: State, p: Part)
    requires s.start <= p.start && p.sysid != ENTIRE_DISK
    ensures Step(s, p) == State(End(p), s.gap + (p.start - s.start), s.overlap, s.free + GapBefore(s.start, p))
  {
  }

  lemma Associates(a: seq<Gap>, b: seq<Gap>, c: seq<Gap>)
    ensures (a + b) + c == a + (b + c)
    ensures a + [] == a
  {
  }

  lemma {:induction false} ScanOfChain(parts: seq<Part>, s: State, last: nat)
    requires Inside(parts, last) && Chain(parts, s.start)
    ensures Scan(parts, s) == State(EndOf(parts, s.start), s.gap + EndOf(parts, s.start) - s.start - Sum(parts), s.overlap, s.free + Gaps(parts, s.start))
    decreases |parts|
  {
    hide Step, GapBefore;
    if parts == [] {
      Associates(s.free, [], []);
    } else {
      StepOfChain(s, parts[0]);
      ScanOfChain(parts[1..], Step(s, parts[0]), last);
      Associates(s.free, GapBefore(s.start, parts[0]), Gaps(parts[1..], End(parts[0])));
    }
  }

  lemma {:induction false} EndIsInside(parts: seq<Part>, from: nat, last: nat)
    requires Inside(parts, last) && from <= last
    ensures EndOf(parts, from) <= last
    decreases |parts|
  {
    if parts != [] {
      EndIsInside(parts[1..], End(parts[0]), last);
    }
  }

  ghost predicate Covered(parts: seq<Part>, x: int) { exists i :: 0 <= i < |parts| && Contains(parts[i], x) }

  ghost predicate IsFree(free: seq<Gap>, x: int) { exists i :: 0 <= i < |free| && free[i].first <= x < free[i].last }

  /** The gaps of a chain, with the one at the end of the disk. */
  function AllGaps(parts: seq<Part>, from: nat, last: nat): seq<Gap> {
    Gaps(parts, from) + if EndOf(parts, from) < last then [Gap(EndOf(parts, from), last)] else []
  }

  lemma {:induction false} GapsAreComplement(parts: seq<Part>, from: nat, last: nat, x: int)
    requires Inside(parts, last) && Chain(parts, from) && from <= last
    ensures IsFree(AllGaps(parts, from, last), x) <==> from <= x < last && !Covered(parts, x)
    decreases |parts|
  {
    var all := AllGaps(parts, from, last);
    if parts == [] {
      assert !Covered(parts, x);
      if from < last {
        FreeByFirst(all, x);
        assert !IsFree([], x);
      }
    } else {
      var rest, e := parts[1..], End(parts[0]);
      GapsAreComplement(rest, e, last, x);
      CoveredByFirst(parts, x);
      AllGapsOfCons(parts, from, last);
      if Covered(rest, x) {
        CoveredBehind(rest, e, x);
      }
      var more := AllGaps(rest, e, last);
      hide Covered, IsFree, AllGaps, Chain, Inside;
      if from < parts[0].start {
        FreeByFirst(all, x);
        assert all[1..] == more;
      } else {
        assert all == more;
      }
    }
  }

  lemma CoveredBehind(parts: seq<Part>, from: nat, x: int)
    requires Chain(parts, from) && Covered(parts, x)
    ensures from <= x
  {
    var i :| 0 <= i < |parts| && Contains(parts[i], x);
    ChainStarts(parts, from, i);
  }

  lemma CoveredByFirst(parts: seq<Part>, x: int)
    requires parts != []
    ensures Covered(parts, x) <==> Contains(parts[0], x) || Covered(parts[1..], x)
  {
    hide Contains;
    assert parts == [parts[0]] + parts[1..];
    if Covered(parts[1..], x) {
      var i :| 0 <= i < |parts[1..]| && Contains(parts[1..][i], x);
      assert Contains(parts[i + 1], x);
    }
  }

  lemma FreeByFirst(free: seq<Gap>, x: int)
    requires free != []
    ensures IsFree(free, x) <==> free[0].first <= x < free[0].last || IsFree(free[1..], x)
  {
    if IsFree(free[1..], x) {
      var i :| 0 <= i < |free[1..]| && free[1..][i].first <= x < free[1..][i].last;
      assert free[i + 1] == free[1..][i];
    }
  }

  /** Gaps in ascending order, none empty and no two next to each other. */
  predicate Ascending(free: seq<Gap>) {
    && (forall i :: 0 <= i < |free| ==> free[i].first < free[i].last)
    && (forall i :: 0 <= i < |free| - 1 ==> free[i].last < free[i + 1].first)
  }

  lemma AscendsFurther(g: Gap, free: seq<Gap>)
    requires Ascending(free) && g.first < g.last && (free != [] ==> g.last < free[0].first)
    ensures Ascending([g] + free)
  {
  }

  lemma AllGapsOfCons(parts: seq<Part>, from: nat, last: nat)
    requires parts != []
    ensures AllGaps(parts, from, last) == GapBefore(from, parts[0]) + AllGaps(parts[1..], End(parts[0]), last)
  {
    hide GapBefore;
  }

  lemma {:induction false} GapsAscend(parts: seq<Part>, from: nat, last: nat)
    requires Inside(parts, last) && Chain(parts, from)
    ensures var all := AllGaps(parts, from, last); Ascending(all) && |all| <= |parts| + 1 && (all != [] ==> from <= all[0].first)
    decreases |parts|
  {
    if parts != [] {
      var rest, e := parts[1..], End(parts[0]);
      GapsAscend(rest, e, last);
      AllGapsOfCons(parts, from, last);
      var more := AllGaps(rest, e, last);
      hide Ascending, AllGaps, Chain, Inside;
      if from < parts[0].start {
        AscendsFurther(Gap(from, parts[0].start), more);
      } else {
        assert AllGaps(parts, from, last) == more;
      }
    }
  }

  /** Without any partition the whole disk counts as free, but the free list stays empty. */
  lemma EmptyLabel(disk: nat)
    ensures Verify([], disk).gap == disk && Verify([], disk).free == [] && !Verify([], disk).overlap
  {
  }

  /**
   * Of disjoint partitions in front of `last` the result is the number of sectors that belong to none,
   * and the free list is the complement in order, in at most one slot more than there are partitions.
   */
  lemma FreeListIsComplement(parts: seq<Part>, disk: nat, last: nat, x: int)
    requires Sorted(parts) && parts != [] && last == (if parts[0].sysid == ENTIRE_DISK then parts[0].len else disk)
    requires Inside(Others(parts[1..]), last) && Disjoint(Others(parts[1..]))
    ensures var r, others := Verify(parts, disk), Others(parts[1..]);
            && r.gap == last - Sum(others)
            && (IsFree(r.free, x) <==> 0 <= x < last && !Covered(others, x))
            && Ascending(r.free) && |r.free| <= |parts|
  {
    var others := Others(parts[1..]);
    OthersAreSorted(parts[1..]);
    OthersAreReal(parts[1..]);
    DisjointIsChain(others, 0, last);
    hide IsFree, Covered, Ascending, Sorted, Disjoint, Inside, Chain, Verify, AllGaps;
    VerifyOfChain(parts, disk, last);
    GapsAreComplement(others, 0, last, x);
    GapsAscend(others, 0, last);
  }

  lemma VerifyOfChain(parts: seq<Part>, disk: nat, last: nat)
    requires parts != [] && last == (if parts[0].sysid == ENTIRE_DISK then parts[0].len else disk)
    requires Inside(Others(parts[1..]), last) && Chain(Others(parts[1..]), 0)
    ensures var r, others := Verify(parts, disk), Others(parts[1..]);
            r.gap == last - Sum(others) && r.free == AllGaps(others, 0, last)
  {
    var others := Others(parts[1..]);
    ScanSkips(parts[1..], NOTHING);
    ScanOfChain(others, NOTHING, last);
    EndIsInside(others, 0, last);
    hide Inside, Chain, Others, Scan, EndOf, Sum, Gaps;
  }

  /** A whole-disk entry sorts first, in front of everything inside it that does not have its extent. */
  lemma WholeDiskSortsFirst(parts: seq<Part>, w: int, disk: nat)
    requires Sorted(parts) && 0 <= w < |parts| && parts[w] == Part(0, disk, ENTIRE_DISK)
    requires forall i :: 0 <= i < |parts| ==> End(parts[i]) <= disk
    ensures parts[0].start == 0 && parts[0].len == disk
    ensures (forall i :: 0 <= i < |parts| && parts[i].len == disk ==> parts[i].sysid == ENTIRE_DISK) ==> parts[0].sysid == ENTIRE_DISK
  {
    if w > 0 {
      assert InOrder(parts[0], parts[w]);
    }
  }

  /** A partition with the same extent may sort in front of it as well as behind. */
  lemma TieIsOpen(disk: nat, sysid: int)
    ensures var whole, p := Part(0, disk, ENTIRE_DISK), Part(0, disk, sysid); Sorted([whole, p]) && Sorted([p, whole])
  {
  }

  // ----- what the sign says -----

  lemma {:induction false} GapStaysPositive(parts: seq<Part>, s: State)
    requires s.gap >= 0 || s.overlap
    ensures Scan(parts, s).gap >= 0 || Scan(parts, s).overlap
    decreases |parts|
  {
    if parts != [] {
      GapStaysPositive(parts[1..], Step(s, parts[0]));
    }
  }

  /** A negative result means an overlap, for every table. */
  lemma NegativeMeansOverlap(parts: seq<Part>, disk: nat)
    requires Verify(parts, disk).gap < 0
    ensures Verify(parts, disk).overlap
  {
    GapStaysPositive(parts[1..], NOTHING);
  }

  /** But not the other way: a gap behind the overlap is added to the negative sum. */
  lemma OverlapCanLookFilled()
    ensures var whole := Part(0, 100, ENTIRE_DISK);
            && Verify([whole, Part(0, 50, 3), Part(10, 89, 3)], 100).overlap
            && Verify([whole, Part(0, 50, 3), Part(10, 89, 3)], 100).gap == 0
            && Verify([whole, Part(0, 50, 3), Part(10, 10, 3)], 100).overlap
            && Verify([whole, Part(0, 50, 3), Part(10, 10, 3)], 100).gap == 79
  {
    var whole := Part(0, 100, ENTIRE_DISK);
    ScanOfTwo(Part(0, 50, 3), Part(10, 89, 3));
    ScanOfTwo(Part(0, 50, 3), Part(10, 10, 3));
    assert [whole, Part(0, 50, 3), Part(10, 89, 3)][1..] == [Part(0, 50, 3), Part(10, 89, 3)];
    assert [whole, Part(0, 50, 3), Part(10, 10, 3)][1..] == [Part(0, 50, 3), Part(10, 10, 3)];
  }

  lemma ScanOfTwo(p: Part, q: Part)
    ensures Scan([p, q], NOTHING) == Step(Step(NOTHING, p), q)
  {
    assert [p, q][1..] == [q] && [q][1..] == [];
    assert Scan([q], Step(NOTHING, p)) == Step(Step(NOTHING, p), q);
  }

  lemma {:induction false} ScanOfConcat(a: seq<Part>, b: seq<Part>, s: State)
    ensures Scan(a + b, s) == Scan(b, Scan(a, s))
    decreases |a|
  {
    if a == [] {
      assert a + b == b;
    } else {
      assert (a + b)[1..] == a[1..] + b;
      ScanOfConcat(a[1..], b, Step(s, a[0]));
    }
  }

  /** The last partition that begins before the one in front of it ends, or 0. */
  function LastBreak(parts: seq<Part>): (i: nat)
    ensures parts != [] ==> i < |parts|
  {
    var n := |parts| - 1;
    if n < 1 then 0 else if End(parts[n - 1]) > parts[n].start then n else LastBreak(parts[..n])
  }

  /** The free sectors between partitions that follow each other without overlap, from sector `from` on. */
  function Spare(parts: seq<Part>, from: nat): int { EndOf(parts, from) - from - Sum(parts) }

  /**
   * The count of free sectors up to the end of the last partition: what is free behind the last overlap,
   * less what all before it counted for, but for its sign, and one at least.
   */
  function Balance(parts: seq<Part>): int
    decreases |parts|, 0
  {
    var i := LastBreak(parts);
    if i == 0 then Spare(parts, 0) else Spare(parts[i..], parts[i].start) - Debt(parts[..i])
  }

  function Debt(parts: seq<Part>): nat
    decreases |parts|, 1
  {
    var g := Balance(parts);
    if g > 0 then g else if g == 0 then 1 else -g
  }

  lemma {:induction false} NoBreakIsChain(parts: seq<Part>, i: nat)
    requires i == LastBreak(parts) && parts != []
    ensures Chain(parts[i + 1..], End(parts[i]))
    decreases |parts|
  {
    var n := |parts| - 1;
    if i < n {
      NoBreakIsChain(parts[..n], i);
      assert parts[..n][i + 1..] + [parts[n]] == parts[i + 1..];
      EndOfLast(parts[..n][i + 1..], End(parts[i]));
      ChainExtends(parts[..n][i + 1..], parts[n], End(parts[i]));
    }
  }

  lemma {:induction false} EndOfLast(parts: seq<Part>, from: nat)
    ensures EndOf(parts, from) == if parts == [] then from else End(parts[|parts| - 1])
    decreases |parts|
  {
    if parts != [] {
      EndOfLast(parts[1..], End(parts[0]));
    }
  }

  lemma {:induction false} ChainExtends(parts: seq<Part>, p: Part, from: nat)
    requires Chain(parts, from) && EndOf(parts, from) <= p.start
    ensures Chain(parts + [p], from)
    decreases |parts|
  {
    if parts == [] {
      assert [p][1..] == [];
    } else {
      assert (parts + [p])[1..] == parts[1..] + [p];
      ChainExtends(parts[1..], p, End(parts[0]));
    }
  }

  lemma {:induction false} ScanEndsAt(parts: seq<Part>, s: State, last: nat)
    requires Inside(parts, last)
    ensures Scan(parts, s).start == EndOf(parts, s.start)
    decreases |parts|
  {
    if parts != [] {
      ScanEndsAt(parts[1..], Step(s, parts[0]), last);
    }
  }

  lemma StepOfBreak(s: State, p: Part)
    requires s.start > p.start && p.sysid != ENTIRE_DISK
    ensures Step(s, p).start == End(p)
    ensures Step(s, p).gap == -(if s.gap > 0 then s.gap else if s.gap == 0 then 1 else -s.gap)
  {
  }

  lemma PartsInside(parts: seq<Part>, i: nat, last: nat)
    requires Inside(parts, last) && i < |parts|
    ensures Inside(parts[..i], last) && Inside(parts[i + 1..], last) && parts[i].sysid != ENTIRE_DISK
    ensures parts == parts[..i] + ([parts[i]] + parts[i + 1..]) && parts[i..] == [parts[i]] + parts[i + 1..]
  {
  }

  lemma SpareOfCons(p: Part, rest: seq<Part>, from: nat)
    ensures Spare([p] + rest, from) == Spare(rest, End(p)) + p.start - from
  {
    assert ([p] + rest)[1..] == rest;
  }

  /** The running sum of the scan is that count, for every table. */
  lemma {:induction false} ScanCounts(parts: seq<Part>, last: nat)
    requires Inside(parts, last)
    ensures Scan(parts, NOTHING).gap == Balance(parts)
    decreases |parts|
  {
    if parts != [] {
      var i := LastBreak(parts);
      PartsInside(parts, i, last);
      NoBreakIsChain(parts, i);
      var p, post := parts[i], parts[i + 1..];
      if i == 0 {
        assert parts[..0] == [] && Chain([p] + post, 0) by { assert ([p] + post)[1..] == post; }
        ScanOfChain(parts, NOTHING, last);
      } else {
        ScanCounts(parts[..i], last);
        BreakIsTaken(parts, i, last);
        SpareOfCons(p, post, p.start);
      }
    }
  }

  lemma BreakIsBefore(parts: seq<Part>)
    requires LastBreak(parts) > 0
    ensures var i := LastBreak(parts); i < |parts| && End(parts[i - 1]) > parts[i].start
  {
  }

  lemma BreakIsTaken(parts: seq<Part>, i: nat, last: nat)
    requires Inside(parts, last) && 0 < i == LastBreak(parts) && Chain(parts[i + 1..], End(parts[i]))
    ensures i < |parts| && Scan(parts[..i], NOTHING).start > parts[i].start
    ensures var g := Scan(parts[..i], NOTHING).gap;
            Scan(parts, NOTHING).gap == -(if g > 0 then g else if g == 0 then 1 else -g) + Spare(parts[i + 1..], End(parts[i]))
  {
    BreakIsBefore(parts);
    PartsInside(parts, i, last);
    hide LastBreak, Inside, Chain, Step;
    var pre, p, post := parts[..i], parts[i], parts[i + 1..];
    ScanEndsAt(pre, NOTHING, last);
    EndOfLast(pre, 0);
    ScanOfConcat(pre, [p] + post, NOTHING);
    ScanOfCons(p, post, Scan(pre, NOTHING));
    StepOfBreak(Scan(pre, NOTHING), p);
    ScanOfChain(post, Step(Scan(pre, NOTHING), p), last);
  }

  lemma ScanOfCons(p: Part, post: seq<Part>, s: State)
    ensures Scan([p] + post, s) == Scan(post, Step(s, p))
  {
    assert ([p] + post)[1..] == post;
  }

  lemma {:induction false} ChainLeavesRoom(parts: seq<Part>, from: nat)
    requires Chain(parts, from)
    ensures Spare(parts, from) >= 0
    decreases |parts|
  {
    if parts != [] {
      ChainLeavesRoom(parts[1..], End(parts[0]));
    }
  }

  /**
   * The result is negative exactly if there is an overlap, and fewer sectors are free behind the start of the
   * last partition that overlaps than all before it counted for. Every table of partitions on the disk.
   */
  lemma NegativeExactlyIf(parts: seq<Part>, disk: nat, last: nat)
    requires parts != [] && last == (if parts[0].sysid == ENTIRE_DISK then parts[0].len else disk)
    requires Inside(Others(parts[1..]), last)
    ensures var others := Others(parts[1..]); var i := LastBreak(others);
            Verify(parts, disk).gap < 0 <==>
              i > 0 && last - others[i].start - Sum(others[i..]) < Debt(others[..i])
  {
    var others := Others(parts[1..]);
    VerifyCounts(parts, disk, last);
    hide Verify, Scan, Inside, Others, EndOf;
    if others != [] {
      NoBreakIsChain(others, LastBreak(others));
      WholeChain(others);
      EndOfTail(others, LastBreak(others));
    } else {
      NothingFree(last);
    }
  }

  /** The result as a count of the table: what the scan counts, and the rest of the disk. */
  lemma VerifyCounts(parts: seq<Part>, disk: nat, last: nat)
    requires parts != [] && last == (if parts[0].sysid == ENTIRE_DISK then parts[0].len else disk)
    requires Inside(Others(parts[1..]), last)
    ensures var others := Others(parts[1..]);
            EndOf(others, 0) <= last && Verify(parts, disk).gap == Balance(others) + (last - EndOf(others, 0))
  {
    var others := Others(parts[1..]);
    ScanSkips(parts[1..], NOTHING);
    ScanCounts(others, last);
    ScanEndsAt(others, NOTHING, last);
    EndIsInside(others, 0, last);
    hide Scan, Inside, Others, EndOf, Balance;
  }

  lemma NothingFree(last: nat)
    ensures Balance([]) == 0 && EndOf([], 0) == 0 && LastBreak([]) == 0
  {
  }

  lemma WholeChain(parts: seq<Part>)
    requires parts != [] && Chain(parts[LastBreak(parts) + 1..], End(parts[LastBreak(parts)]))
    ensures LastBreak(parts) == 0 ==> Spare(parts, 0) >= 0
  {
    if LastBreak(parts) == 0 {
      assert Chain(parts, 0);
      ChainLeavesRoom(parts, 0);
    }
  }

  lemma EndOfTail(parts: seq<Part>, i: nat)
    requires i < |parts|
    ensures EndOf(parts[i..], parts[i].start) == EndOf(parts, 0)
  {
    EndOfLast(parts[i..], parts[i].start);
    EndOfLast(parts, 0);
  }

  /** Without a whole-disk entry in front, the first partition is not looked at. */
  lemma FirstPartitionIsIgnored(parts: seq<Part>, p: Part, disk: nat)
    requires parts != [] && parts[0].sysid != ENTIRE_DISK && p.sysid != ENTIRE_DISK
    ensures Verify(parts[0 := p], disk) == Verify(parts, disk)
  {
    assert parts[0 := p][1..] == parts[1..];
  }

  // ----- the loop, and its list of 17 slots -----

  class FreeBlocks {
    const first: array<int>
    const last: array<int>

    constructor ()
      ensures Valid() && fresh(first) && fresh(last) && first.Length == last.Length == 17
    {
      first, last := new int[SLOTS](_ => 0), new int[SLOTS](_ => 0);
    }

    predicate Valid() { first.Length == SLOTS && last.Length == SLOTS && first != last }

    /** The used slots are those in front, and hold this list. */
    ghost predicate Holds(free: seq<Gap>)
      requires Valid()
      reads first, last
    {
      && |free| <= SLOTS
      && (forall i :: 0 <= i < |free| ==> first[i] == free[i].first && last[i] == free[i].last && free[i].last > 0)
      && (forall i :: |free| <= i < SLOTS ==> last[i] == 0)
    }

    /** `clearfreelist` */
    method Clear()
      requires Valid()
      modifies first, last
      ensures Holds([])
    {
      var i := 0;
      while i < SLOTS
        invariant i <= SLOTS && forall j :: 0 <= j < i ==> last[j] == 0
      {
        first[i], last[i] := 0, 0;
        i := i + 1;
      }
    }

    /** `add2freelist` */
    method Add(f: nat, l: nat, ghost free: seq<Gap>)
      requires Valid() && Holds(free) && |free| < SLOTS && l > 0
      modifies first, last
      ensures Holds(free + [Gap(f, l)])
    {
      var i := 0;
      while last[i] != 0
        invariant i <= |free|
        decreases SLOTS - i
      {
        i := i + 1;
      }
      first[i], last[i] := f, l;
    }

    /** `verify_sgi`: at most sixteen partitions never need more than the seventeen slots. */
    method Check(parts: seq<Part>, lastblock: nat) returns (gap: int, ghost end: State)
      requires Valid() && |parts| <= 16
      modifies first, last
      ensures end == Verify(parts, lastblock) && gap == end.gap && Holds(end.free)
    {
      hide Scan, Holds;
      Clear();
      if |parts| == 0 {
        return lastblock, Verify(parts, lastblock);
      }
      var diskEnd := if parts[0].sysid == ENTIRE_DISK then parts[0].len else lastblock;
      var start, i := 0, 1;
      gap := 0;
      ghost var s := NOTHING;
      while i < |parts|
        invariant 1 <= i <= |parts| && s.start == start && s.gap == gap && |s.free| < i
        invariant Holds(s.free) && Scan(parts[i..], s) == Scan(parts[1..], NOTHING)
      {
        var p := parts[i];
        ScanStep(parts, i, s);
        if p.sysid != ENTIRE_DISK {
          if start > p.start {
            if gap > 0 { gap := -gap; }
            if gap == 0 { gap := -1; }
          }
          if start < p.start {
            gap := gap + (p.start - start);
            Add(start, p.start, s.free);
          }
          start := p.start + p.len;
        }
        s := Step(s, p);
        i := i + 1;
      }
      ScanEnd(parts, i, s);
      if start < diskEnd {
        gap := gap + (diskEnd - start);
        Add(start, diskEnd, s.free);
      }
      end := Close(s, diskEnd);
    }
  }

  lemma ScanStep(parts: seq<Part>, i: nat, s: State)
    requires i < |parts|
    ensures Scan(parts[i..], s) == Scan(parts[i + 1..], Step(s, parts[i]))
  {
    assert parts[i..][1..] == parts[i + 1..];
  }

  lemma ScanEnd(parts: seq<Part>, i: nat, s: State)
    requires i == |parts|
    ensures Scan(parts[i..], s) == s
  {
  }
}
