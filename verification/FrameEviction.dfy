/**
 * The writer makes room before it inserts a frame: `while (!enable_add) delete_tail`.
 * Pinned frames keep their bytes when they are unlinked, so the loop ends if and only if
 * the pinned bytes leave room.
 */
module FrameEviction {
  import opened MachineInt
  import opened FrameList
  import opened FrameRuns

  predicate Used(mem: map<Ptr, Node>, p: Ptr) { p in mem && mem[p].users > 0 }

  /** The bytes of those frames that somebody uses. */
  function PinnedBytes(mem: map<Ptr, Node>, frames: seq<Frame>): nat {
    if frames == [] then 0 else (if Used(mem, frames[0].ptr) then frames[0].len else 0) + PinnedBytes(mem, frames[1..])
  }

  /** What no eviction can give back. */
  function Pinned(w: World): nat { PinnedBytes(w.s.mem, w.chain) + Bytes(w.evicted) }

  lemma {:induction false} PinnedBytesFrame(mem: map<Ptr, Node>, mem': map<Ptr, Node>, frames: seq<Frame>)
    requires forall f :: f in frames ==> Used(mem, f.ptr) == Used(mem', f.ptr)
    ensures PinnedBytes(mem, frames) == PinnedBytes(mem', frames)
  {
    if frames != [] {
      PinnedBytesFrame(mem, mem', frames[1..]);
    }
  }

  lemma {:induction false} PinnedAtMost(mem: map<Ptr, Node>, frames: seq<Frame>)
    ensures PinnedBytes(mem, frames) <= Bytes(frames)
  {
    if frames != [] {
      PinnedAtMost(mem, frames[1..]);
    }
  }

  /** Evicting a frame frees it only if nobody uses it, so the pinned bytes stay what they are. */
  lemma DeleteKeepsPinned(w: World, t: Shared)
    requires Linked(w.s, w.chain) && w.chain != [] && Delete(w.s) == Some(t)
    ensures Pinned(AfterDelete(w, t)) == Pinned(w)
    ensures AfterDelete(w, t).chain == w.chain[1..]
  {
    var tail, rest := w.chain[0], w.chain[1..];
    assert Stored(w.s.mem, tail);
    LinkedApart(w.s, w.chain);
    forall f | f in rest ensures Used(w.s.mem, f.ptr) == Used(t.mem, f.ptr) {
      assert f.ptr != tail.ptr;
    }
    PinnedBytesFrame(w.s.mem, t.mem, rest);
    BytesOfConcat(w.evicted, [tail]);
    assert Bytes([tail]) == tail.len;
    hide Linked, Bytes;
  }

  /** The list after `k` evictions. */
  function Evict(w: World, k: nat): Option<World>
    decreases k
  {
    if k == 0 then Some(w)
    else match Delete(w.s) case None => None case Some(t) => Evict(AfterDelete(w, t), k - 1)
  }

  lemma StateAfterDelete(w: World, t: Shared)
    ensures AfterDelete(w, t).s == t && AfterDelete(w, t).readers == w.readers
  {
  }

  /** One turn of the loop. */
  lemma EvictOnce(w: World)
    requires Inv(w) && w.chain != []
    ensures Delete(w.s).Some?
    ensures var v := AfterDelete(w, Delete(w.s).value);
            Inv(v) && v.chain == w.chain[1..] && Pinned(v) == Pinned(w) && v.s == Delete(w.s).value
            && v.s.maxNum == w.s.maxNum && v.s.maxSize == w.s.maxSize && v.s.pListHead == w.s.pListHead
  {
    DeleteKeepsInv(w);
    assert Linked(w.s, w.chain);
    hide Inv, Linked, Delete, AfterDelete, Pinned;
    DeleteKeepsPinned(w, Delete(w.s).value);
    DeleteKeepsLimits(w.s);
    StateAfterDelete(w, Delete(w.s).value);
  }

  /** Any number of evictions up to the number of frames leaves a consistent list with the same pinned bytes. */
  lemma {:induction false} EvictKeepsInv(w: World, k: nat)
    requires Inv(w) && k <= |w.chain|
    ensures Evict(w, k).Some?
    ensures var v := Evict(w, k).value;
            Inv(v) && v.chain == w.chain[k..] && Pinned(v) == Pinned(w)
            && v.s.maxNum == w.s.maxNum && v.s.maxSize == w.s.maxSize && v.s.pListHead == w.s.pListHead
    decreases k
  {
    hide Inv, Delete, AfterDelete, Pinned;
    if k > 0 {
      EvictOnce(w);
      EvictKeepsInv(AfterDelete(w, Delete(w.s).value), k - 1);
    }
  }

  predicate RoomAfter(w: World, k: nat) { Evict(w, k).Some? && EnableAdd(Evict(w, k).value.s) }

  /** With nothing linked only the pinned bytes are counted. */
  lemma RoomWhenEmpty(w: World)
    requires Inv(w) && w.chain == [] && 3 <= w.s.maxNum && Pinned(w) < w.s.maxSize <= TWO32
    ensures EnableAdd(w.s)
  {
    assert Bytes(w.chain) == 0 && Pinned(w) == Bytes(w.evicted);
    hide Kept, Owned, Counted, Cursors, Bytes;
  }

  /**
   * There is room exactly while the bytes and the frames are below their limits, as long as the counter has not
   * wrapped.
   */
  lemma RoomExactlyIf(w: World)
    requires Inv(w) && Bytes(w.chain) + Bytes(w.evicted) < TWO32
    ensures EnableAdd(w.s) <==> Bytes(w.chain) + Bytes(w.evicted) < w.s.maxSize && |w.chain| + 2 < w.s.maxNum
  {
    hide Kept, Owned, Counted, Cursors, Bytes;
  }

  /** What is left when the `k` oldest frames are gone: the newer ones, and those that somebody uses. */
  function BytesWithout(w: World, k: nat): nat
    requires k <= |w.chain|
  {
    Bytes(w.chain[k..]) + PinnedBytes(w.s.mem, w.chain[..k]) + Bytes(w.evicted)
  }

  /** Without the `k` oldest frames both limits hold. */
  predicate MeetsLimits(w: World, k: nat)
    requires k <= |w.chain|
  {
    BytesWithout(w, k) < w.s.maxSize && |w.chain| - k + 2 < w.s.maxNum
  }

  lemma {:induction false} PinnedOfConcat(mem: map<Ptr, Node>, a: seq<Frame>, b: seq<Frame>)
    ensures PinnedBytes(mem, a + b) == PinnedBytes(mem, a) + PinnedBytes(mem, b)
  {
    if a == [] {
      assert a + b == b;
    } else {
      assert (a + b)[1..] == a[1..] + b;
      PinnedOfConcat(mem, a[1..], b);
    }
  }

  lemma UseAfterDelete(w: World, t: Shared, f: Frame)
    requires Inv(w) && w.chain != [] && Delete(w.s) == Some(t) && f in w.chain[1..]
    ensures Used(t.mem, f.ptr) == Used(w.s.mem, f.ptr)
  {
    hide Kept, Owned, Accounted, Counted, Cursors;
    assert Stored(w.s.mem, w.chain[0]);
    LinkedApart(w.s, w.chain);
  }

  lemma {:induction false} EvictKeepsUse(w: World, k: nat)
    requires Inv(w) && k <= |w.chain| && Evict(w, k).Some?
    ensures forall f :: f in w.chain[k..] ==> Used(Evict(w, k).value.s.mem, f.ptr) == Used(w.s.mem, f.ptr)
    ensures Bytes(Evict(w, k).value.chain) + Bytes(Evict(w, k).value.evicted) <= Bytes(w.chain) + Bytes(w.evicted)
    decreases k
  {
    hide Inv, Delete, AfterDelete, Used, Bytes, Pinned;
    if k > 0 {
      EvictOnce(w);
      TotalAfterDelete(w);
      var v := AfterDelete(w, Delete(w.s).value);
      EvictKeepsUse(v, k - 1);
      assert w.chain[k..] == v.chain[k - 1..];
      assert Evict(w, k) == Evict(v, k - 1);
      hide Evict;
      forall f | f in w.chain[k..] ensures Used(v.s.mem, f.ptr) == Used(w.s.mem, f.ptr) {
        InSuffix(w.chain, k, f);
        UseAfterDelete(w, v.s, f);
      }
    }
  }

  lemma InSuffix(chain: seq<Frame>, k: nat, f: Frame)
    requires 1 <= k <= |chain| && f in chain[k..]
    ensures f in chain[1..]
  {
    assert chain[1..] == chain[1..k] + chain[k..];
  }

  /** The evictions do what they are for: room is made exactly when the remaining frames meet the limits. */
  lemma RoomAfterExactlyIf(w: World, k: nat)
    requires Inv(w) && k <= |w.chain| && Bytes(w.chain) + Bytes(w.evicted) < TWO32
    ensures RoomAfter(w, k) <==> MeetsLimits(w, k)
  {
    hide Inv, EnableAdd, Evict, Bytes, PinnedBytes, Used;
    EvictKeepsInv(w, k);
    EvictKeepsUse(w, k);
    var v := Evict(w, k).value;
    RoomExactlyIf(v);
    assert w.chain == w.chain[..k] + w.chain[k..];
    PinnedOfConcat(w.s.mem, w.chain[..k], w.chain[k..]);
    PinnedBytesFrame(w.s.mem, v.s.mem, w.chain[k..]);
  }

  /** While the pinned bytes fill the limit there is no room, whatever is evicted. */
  lemma NoRoomWhilePinned(w: World)
    requires Inv(w) && Pinned(w) >= w.s.maxSize && Bytes(w.chain) + Bytes(w.evicted) < TWO32
    ensures w.s.allSize >= w.s.maxSize
  {
    PinnedAtMost(w.s.mem, w.chain);
    hide Linked, Kept, Owned, Counted, Cursors, Bytes;
  }

  /** A list that was emptied while its pinned bytes fill the limit. */
  predicate Stuck(s: Shared) { s.list == NULL && s.allSize >= s.maxSize }

  /** No unlock helps such a list: with nothing linked, giving a pin back has no effect. */
  lemma StuckForever(w: World, op: Op)
    requires Stuck(w.s) && !op.AddOp?
    ensures Step(w, op).Some? && Stuck(Step(w, op).value.s) && !EnableAdd(Step(w, op).value.s)
  {
  }

  lemma {:induction false} StuckRun(w: World, ops: seq<Op>)
    requires Stuck(w.s) && forall op :: op in ops ==> !op.AddOp?
    ensures Run(w, ops).Some? && !EnableAdd(Run(w, ops).value.s)
    decreases |ops|
  {
    hide Step;
    if ops != [] {
      StuckForever(w, ops[0]);
      StuckRun(Step(w, ops[0]).value, ops[1..]);
    }
  }

  lemma {:induction false} StuckNeverHasRoom(w: World, k: nat)
    requires Stuck(w.s)
    ensures !RoomAfter(w, k)
    decreases k
  {
    if k > 0 {
      StuckNeverHasRoom(AfterDelete(w, Delete(w.s).value), k - 1);
    }
  }

  lemma PinnedHasNoRoomYet(w: World)
    requires Inv(w) && Pinned(w) >= w.s.maxSize && Bytes(w.chain) + Bytes(w.evicted) < TWO32
    ensures !RoomAfter(w, 0)
    ensures w.chain == [] ==> Stuck(w.s)
  {
    NoRoomWhilePinned(w);
    hide Kept, Owned, Accounted, Counted, Cursors, Bytes, Pinned;
  }

  lemma {:induction false} PinnedNeverHasRoom(w: World, k: nat)
    requires Inv(w) && Pinned(w) >= w.s.maxSize && Bytes(w.chain) + Bytes(w.evicted) < TWO32
    ensures !RoomAfter(w, k)
    decreases k
  {
    hide Inv, Pinned, Delete, AfterDelete, EnableAdd, Bytes, Stuck;
    PinnedHasNoRoomYet(w);
    if w.chain == [] {
      StuckNeverHasRoom(w, k);
    } else if k > 0 {
      EvictOnce(w);
      TotalAfterDelete(w);
      PinnedNeverHasRoom(AfterDelete(w, Delete(w.s).value), k - 1);
    }
  }

  lemma TotalAfterDelete(w: World)
    requires w.chain != [] && Delete(w.s).Some?
    ensures var v := AfterDelete(w, Delete(w.s).value);
            Bytes(v.chain) + Bytes(v.evicted) <= Bytes(w.chain) + Bytes(w.evicted)
  {
    BytesOfConcat(w.evicted, [w.chain[0]]);
    assert Bytes([w.chain[0]]) == w.chain[0].len;
    hide Delete;
  }

  /** The loop ends if and only if the pinned bytes are below the limit. */
  lemma EvictionEndsExactlyIf(w: World)
    requires Inv(w) && 3 <= w.s.maxNum && w.s.maxSize < TWO32 && Bytes(w.chain) + Bytes(w.evicted) < TWO32
    ensures (exists k: nat :: RoomAfter(w, k)) <==> Pinned(w) < w.s.maxSize
  {
    hide Inv, Pinned, Bytes, RoomAfter;
    if Pinned(w) < w.s.maxSize {
      EvictionEnds(w);
    } else {
      forall k: nat ensures !RoomAfter(w, k) { PinnedNeverHasRoom(w, k); }
    }
  }

  lemma EvictionEnds(w: World)
    requires Inv(w) && 3 <= w.s.maxNum && Pinned(w) < w.s.maxSize < TWO32
    ensures RoomAfter(w, |w.chain|)
  {
    hide Inv, Pinned, EnableAdd;
    EvictKeepsInv(w, |w.chain|);
    RoomWhenEmpty(Evict(w, |w.chain|).value);
  }

  /** Where there is room both limits hold, and the add that follows evicts nothing. */
  lemma RoomIsNotFull(w: World)
    requires Inv(w) && EnableAdd(w.s)
    ensures w.s.allSize < w.s.maxSize && |w.chain| + 2 < w.s.maxNum && !Full(w)
  {
    hide Kept, Owned, Accounted, Counted, Cursors;
  }

  /** The newest frame is still known after the loop exactly if a frame is left, or the pointer was never set. */
  lemma HeadAfterEviction(w: World, k: nat)
    requires Inv(w) && HeadKnown(w) && k <= |w.chain|
    ensures Evict(w, k).Some?
    ensures HeadKnown(Evict(w, k).value) <==> k < |w.chain| || w.s.pListHead == NULL
  {
    hide Inv;
    EvictKeepsInv(w, k);
  }

  // ----- what happens after the last frame is evicted -----

  lemma StepAddFaults(w: World, p: Ptr, len: nat)
    requires w.s.itemNum <= 1 && w.s.maxNum >= 3
    ensures StepAdd(w, p, len).None? <==> Add(w.s, p, len).None?
    ensures StepAdd(w, p, len).Some? ==> StepAdd(w, p, len).value.s == Add(w.s, p, len).value.1
  {
    hide Add, Delete;
  }

  lemma {:induction false} RunOfThree(w: World, x: Op, y: Op, z: Op)
    requires Step(w, x).Some? && Step(Step(w, x).value, y).Some?
    ensures Run(w, [x, y, z]) == Step(Step(Step(w, x).value, y).value, z)
  {
    hide Step;
    var v := Step(w, x).value;
    var u := Step(v, y).value;
    assert [x, y, z][1..] == [y, z] && [y, z][1..] == [z] && [z][1..] == [];
    assert Run(u, [z]) == Step(u, z);
    assert Run(v, [y, z]) == Run(u, [z]);
  }

  /** Some row of frames, readers and pins makes the shared state a consistent list. */
  ghost predicate Viewed(s: Shared) { exists w: World :: w.s == s && Inv(w) }

  lemma AppendBehindStale(s: Shared, a: Ptr, b: Ptr, len: nat)
    requires s.list == a != NULL && a in s.mem && s.mem[a].next == NULL && s.itemNum == 1 && s.maxNum >= 3
    requires s.pListHead != NULL && s.pListHead != a && b != a
    ensures Add(s, b, len).None? <==> s.pListHead != b && s.pListHead !in s.mem
    ensures Add(s, b, len).Some? ==>
              var t := Add(s, b, len).value.1; t.list == a && t.itemNum == 2 && a in t.mem && t.mem[a].next == NULL
  {
  }

  /** Two frames are counted and one is linked. */
  lemma UnlinkedFrame(t: Shared)
    requires t.list != NULL && t.itemNum == 2 && t.list in t.mem && t.mem[t.list].next == NULL
    ensures !Viewed(t)
  {
    forall w: World | w.s == t ensures !Inv(w) {
      hide Linked, Kept, Owned, Accounted, Counted, Cursors;
      if Inv(w) {
        TwoAreLinked(w.s, w.chain);
      }
    }
  }

  lemma TwoAreLinked(s: Shared, chain: seq<Frame>)
    requires Linked(s, chain) && s.itemNum == 2
    ensures s.list in s.mem && s.mem[s.list].next != NULL
  {
    assert Stored(s.mem, chain[0]) && Stored(s.mem, chain[1]);
    assert s.mem[chain[0].ptr].next == Successor(chain, 0);
  }

  /** The first frame added to an emptied list. */
  lemma FirstAfterEmptied(v: World, a: Ptr, len: nat)
    requires Inv(v) && v.chain == [] && 3 <= v.s.maxNum && a != NULL && a !in v.s.mem && v.s.pListHead != NULL
    ensures Step(v, AddOp(a, len)).Some?
    ensures var u := Step(v, AddOp(a, len)).value;
            && Inv(u) && (HeadKnown(u) <==> a == v.s.pListHead)
            && u.s.list == a && u.s.itemNum == 1 && u.s.maxNum == v.s.maxNum && u.s.pListHead == v.s.pListHead
            && u.s.mem.Keys == v.s.mem.Keys + {a} && u.s.mem[a].next == NULL
  {
    hide Linked, Kept, Owned, Accounted, Counted, Cursors, HeadKnown, Append, StepAdd;
    CountIsSmall(v);
    AppendKeepsInv(v, a, len);
    AppendKeepsHead(v, a, len);
    hide Inv;
    assert !Full(v);
    StepAddWithRoom(v, AppendedState(v.s, v.chain, a, len), a, len);
  }

  /**
   * A list that was emptied with its newest frame recorded is right again after two adds if and only if
   * `malloc` gave the first of them the address that is still recorded. Otherwise the second frame is hung
   * behind a node that is not linked, itself at worst; or, if no node is there, that is the fault.
   */
  lemma EmptiedListIsRightExactlyIf(w: World, a: Ptr, b: Ptr, len: nat, more: nat)
    requires Good(w) && |w.chain| == 1 && w.s.pListHead != NULL && 3 <= w.s.maxNum
    requires a != NULL && b != NULL && a != b
    requires Delete(w.s).Some? ==> a !in Delete(w.s).value.mem && b !in Delete(w.s).value.mem
    ensures Step(w, DeleteOp).Some? && Step(Step(w, DeleteOp).value, AddOp(a, len)).Some?
    ensures var v := Step(w, DeleteOp).value;
            var t := Step(Step(v, AddOp(a, len)).value, AddOp(b, more));
            && (t.Some? && Viewed(t.value.s) <==> a == w.s.pListHead)
            && (a == w.s.pListHead ==> t.Some? && Good(t.value))
            && (t.None? <==> w.s.pListHead !in v.s.mem && w.s.pListHead !in {a, b})
  {
    EvictOnce(w);
    var v := Step(w, DeleteOp).value;
    assert v == AfterDelete(w, Delete(w.s).value) && v.chain == [];
    FirstAfterEmptied(v, a, len);
    var u := Step(v, AddOp(a, len)).value;
    hide Inv, HeadKnown, Add, Delete, StepAdd, AfterDelete, Viewed;
    assert Step(u, AddOp(b, more)) == StepAdd(u, b, more);
    if a == w.s.pListHead {
      assert !Full(u);
      AddIsGood(u, b, more);
      ViewedByWorld(StepAdd(u, b, more).value);
    } else {
      StepAddFaults(u, b, more);
      AppendBehindStale(u.s, a, b, more);
      if Add(u.s, b, more).Some? {
        UnlinkedFrame(Add(u.s, b, more).value.1);
      }
    }
  }

  lemma ViewedByWorld(w: World)
    requires Inv(w)
    ensures Viewed(w.s)
  {
  }

  /** It is a fault if and only if the recorded node was freed, and `malloc` gave its address to neither frame. */
  lemma EmptiedListFaults(w: World, a: Ptr, b: Ptr, len: nat)
    requires Good(w) && |w.chain| == 1 && w.s.pListHead != NULL && 3 <= w.s.maxNum && w.s.list in w.s.mem
    requires a != NULL && b != NULL && a != b
    requires Delete(w.s).Some? ==> a !in Delete(w.s).value.mem && b !in Delete(w.s).value.mem
    ensures Run(w, [DeleteOp, AddOp(a, len), AddOp(b, len)]).None?
       <==> w.s.mem[w.s.list].users <= 0 && w.s.pListHead !in {a, b}
  {
    assert w.s.pListHead == w.s.list != NULL by { hide Kept, Owned, Accounted, Counted, Cursors; }
    EmptiedListIsRightExactlyIf(w, a, b, len, len);
    FreedByDelete(w.s);
    StateAfterDelete(w, Delete(w.s).value);
    hide Good, Delete, StepAdd;
    RunOfThree(w, DeleteOp, AddOp(a, len), AddOp(b, len));
  }

  lemma FreedByDelete(s: Shared)
    requires s.list in s.mem && s.list != NULL
    ensures Delete(s).Some? && (s.list in Delete(s).value.mem <==> s.mem[s.list].users > 0)
  {
  }

  // ----- both failures, reached from a new list -----

  /** What an add to a list with room does. */
  lemma AddWithRoom(w: World, p: Ptr, len: nat)
    requires Good(w) && !Full(w) && p != NULL && p !in w.s.mem
    ensures Allowed(w, AddOp(p, len)) && CanAppend(w.s, w.chain, p)
    ensures var v := AfterAppend(w, AppendedState(w.s, w.chain, p, len), p, len);
            Step(w, AddOp(p, len)) == Some(v) && Good(v)
  {
    hide Inv, HeadKnown, Append, CanAppend, AppendedState, AfterAppend, StepAdd, Full;
    CountIsSmall(w);
    RoomForOne(w);
    EmptyHasNoHead(w);
    AppendStep(w, p, len);
    StepAddWithRoom(w, AppendedState(w.s, w.chain, p, len), p, len);
    hide Good;
  }

  lemma RoomForOne(w: World)
    requires Inv(w) && !Full(w)
    ensures w.s.itemNum + 1 <= w.s.maxNum
    ensures w.s.maxNum == 1 ==> w.chain == []
  {
    hide Kept, Owned, Accounted, Counted, Cursors;
  }

  /** What an add does to the fields that matter below. */
  lemma Appends(w: World, p: Ptr, len: nat)
    requires CanAppend(w.s, w.chain, p)
    ensures var v := AfterAppend(w, AppendedState(w.s, w.chain, p, len), p, len);
            && v.chain == w.chain + [Frame(p, w.s.seqNo, len)] && v.readers == w.readers && v.evicted == w.evicted && v.leaked == w.leaked
            && v.s.maxNum == w.s.maxNum && v.s.maxSize == w.s.maxSize && v.s.itemNum == w.s.itemNum + 1 && v.s.tailId == w.s.tailId
            && v.s.pListHead == (if w.chain == [] then w.s.pListHead else p) && v.s.allSize == U32(w.s.allSize + len)
            && v.s.mem.Keys == w.s.mem.Keys + {p}
  {
  }

  /** A list nobody reads, of frames that were all linked. */
  predicate Unread(w: World) { w.readers == map[] && w.evicted == [] && w.leaked == multiset{} }

  /** Of such a list the oldest of two frames is freed. */
  lemma DeleteUnread(w: World)
    requires Good(w) && Unread(w) && |w.chain| == 2
    ensures Allowed(w, DeleteOp) && Step(w, DeleteOp).Some?
    ensures var v := Step(w, DeleteOp).value;
            Good(v) && Unread(v) && v.chain == w.chain[1..] && v.s.pListHead == w.s.pListHead && v.s.maxNum == w.s.maxNum
  {
    DeleteIsGood(w);
    UnreadIsUnused(w);
    DeleteKeepsLimits(w.s);
    hide Good, Delete;
  }

  lemma UnreadIsUnused(w: World)
    requires Inv(w) && Unread(w) && w.chain != []
    ensures w.chain[0].ptr in w.s.mem && w.s.list == w.chain[0].ptr && w.s.mem[w.chain[0].ptr].users == 0
    ensures w.s.mem.Keys == Addresses(w.chain)
  {
    assert Stored(w.s.mem, w.chain[0]);
    assert Holders(w.readers, w.chain[0].ptr) == {};
    hide Kept, Accounted, Cursors;
  }

  lemma RunStep(w: World, op: Op, rest: seq<Op>)
    ensures Run(w, [op] + rest) == if Step(w, op).Some? then Run(Step(w, op).value, rest) else None
    ensures Run(w, []) == Some(w)
    ensures Step(w, op).Some? && Allowed(w, op) ==> (AllowedRun(w, [op] + rest) <==> AllowedRun(Step(w, op).value, rest))
    ensures AllowedRun(w, [])
  {
    hide Step, Allowed;
    assert ([op] + rest)[1..] == rest;
  }

  /** A new list with one frame, and with another. */
  lemma OneFrameLinked(w: World, maxSize: nat, len: nat)
    requires w == Initial(60, maxSize)
    ensures Allowed(w, AddOp(1, len)) && Step(w, AddOp(1, len)).Some?
    ensures var v := Step(w, AddOp(1, len)).value;
            && Good(v) && Unread(v) && v.chain == [Frame(1, 0, len)] && v.s.itemNum == 1 && v.s.maxNum == 60 && v.s.mem.Keys == {1}
            && v.s.pListHead == NULL && v.s.maxSize == maxSize && v.s.allSize == U32(len) && v.s.tailId == 0
  {
    InitialIsGood(60, maxSize);
    assert !Full(w);
    AddWithRoom(w, 1, len);
    Appends(w, 1, len);
    hide Good, Step, Allowed, AfterAppend, AppendedState, CanAppend, Full;
  }

  lemma SecondFrameLinked(w: World, len: nat)
    requires Good(w) && Unread(w) && |w.chain| == 1 && w.s.itemNum == 1 && w.s.maxNum == 60 && w.s.mem.Keys == {1}
    ensures Allowed(w, AddOp(2, len)) && Step(w, AddOp(2, len)).Some?
    ensures var v := Step(w, AddOp(2, len)).value;
            && Good(v) && Unread(v) && |v.chain| == 2 && v.chain[1].ptr == 2 && v.s.pListHead == 2 && v.s.maxNum == 60
  {
    assert !Full(w);
    AddWithRoom(w, 2, len);
    Appends(w, 2, len);
    hide Good, Step, Allowed, AfterAppend, AppendedState, CanAppend, Full;
  }

  /** Two frames added to a new list, and the older one evicted. */
  lemma TwoFramesEvicted(w: World, maxSize: nat, len: nat)
    requires w == Initial(60, maxSize)
    ensures AllowedRun(w, [AddOp(1, len), AddOp(2, len), DeleteOp])
    ensures var v := Run(w, [AddOp(1, len), AddOp(2, len), DeleteOp]);
            v.Some? && Good(v.value) && Unread(v.value) && |v.value.chain| == 1 && v.value.chain[0].ptr == 2
            && v.value.s.pListHead == 2 && v.value.s.maxNum == 60
  {
    hide *;
    OneFrameLinked(w, maxSize, len);
    var one := Step(w, AddOp(1, len)).value;
    SecondFrameLinked(one, len);
    var two := Step(one, AddOp(2, len)).value;
    DeleteUnread(two);
    var last := Step(two, DeleteOp).value;
    assert [AddOp(1, len), AddOp(2, len), DeleteOp] == [AddOp(1, len)] + ([AddOp(2, len)] + ([DeleteOp] + []));
    RunStep(w, AddOp(1, len), [AddOp(2, len)] + ([DeleteOp] + []));
    RunStep(one, AddOp(2, len), [DeleteOp] + []);
    RunStep(two, DeleteOp, []);
    RunStep(last, DeleteOp, []);
  }

  lemma {:induction false} RunOfConcat(w: World, a: seq<Op>, b: seq<Op>)
    requires Run(w, a).Some?
    ensures Run(w, a + b) == Run(Run(w, a).value, b)
    decreases |a|
  {
    hide Step;
    if a == [] {
      assert a + b == b;
    } else {
      assert (a + b)[1..] == a[1..] + b;
      RunOfConcat(Step(w, a[0]).value, a[1..], b);
    }
  }

  /** Two frames added, and all evicted: the second frame added after that is hung behind freed memory. */
  lemma EmptiedListIsReached(maxSize: nat, len: nat)
    ensures var start, ops := Initial(60, maxSize), [AddOp(1, len), AddOp(2, len), DeleteOp];
            && AllowedRun(start, ops)
            && Run(start, ops + [DeleteOp, AddOp(3, len), AddOp(4, len)]).None?
  {
    var start, ops := Initial(60, maxSize), [AddOp(1, len), AddOp(2, len), DeleteOp];
    TwoFramesEvicted(start, maxSize, len);
    var w := Run(start, ops).value;
    assert w.s.list in w.s.mem && w.s.mem[w.s.list].users <= 0 && w.s.list == 2 by { UnreadIsUnused(w); }
    OnlyFrameIsFreed(w);
    RunOfConcat(start, ops, [DeleteOp, AddOp(3, len), AddOp(4, len)]);
    hide Run, AllowedRun, Good, Unread, Initial;
    EmptiedListFaults(w, 3, 4, len);
  }

  /**
   * The same, but `malloc` gives the second one the freed address: it is linked to itself, and no consistent list
   * is left.
   */
  lemma SelfLinkIsReached(maxSize: nat, len: nat)
    ensures var start, ops := Initial(60, maxSize), [AddOp(1, len), AddOp(2, len), DeleteOp];
            && AllowedRun(start, ops)
            && var r := Run(start, ops + [DeleteOp, AddOp(3, len), AddOp(2, len)]); r.Some? && !Viewed(r.value.s)
  {
    var start, ops := Initial(60, maxSize), [AddOp(1, len), AddOp(2, len), DeleteOp];
    hide *;
    TwoFramesEvicted(start, maxSize, len);
    var w := Run(start, ops).value;
    OnlyFrameIsFreed(w);
    RunOfConcat(start, ops, [DeleteOp, AddOp(3, len), AddOp(2, len)]);
    EmptiedListIsRightExactlyIf(w, 3, 2, len, len);
    RunOfThree(w, DeleteOp, AddOp(3, len), AddOp(2, len));
  }

  lemma OnlyFrameIsFreed(w: World)
    requires Good(w) && Unread(w) && |w.chain| == 1
    ensures Delete(w.s).Some? && Delete(w.s).value.mem.Keys == {}
  {
    UnreadIsUnused(w);
    assert w.chain == [w.chain[0]];
    hide Good;
  }

  lemma DeletePinnedLast(s: Shared)
    requires s.list in s.mem && s.list != NULL && s.mem[s.list].users > 0 && s.mem[s.list].next == NULL && s.allSize >= s.maxSize
    ensures Delete(s).Some? && Stuck(Delete(s).value)
  {
  }

  /** The only frame, pinned by a first reader. */
  lemma PinOnly(w: World)
    requires Good(w) && |w.chain| == 1 && w.s.tailId == 0 && w.readers == map[]
    ensures Allowed(w, LockOp(0, 0)) && Step(w, LockOp(0, 0)).Some?
    ensures var v := Step(w, LockOp(0, 0)).value;
            && v.s.list in v.s.mem && v.s.list != NULL && v.s.mem[v.s.list].users > 0 && v.s.mem[v.s.list].next == NULL
            && v.s.allSize == w.s.allSize && v.s.maxSize == w.s.maxSize && v.chain == w.chain && v.s.pListHead == w.s.pListHead
  {
    hide Linked, Kept, Owned, Accounted, Counted, Cursors, HeadKnown, CursorOk, Lock;
    FirstOfOne(w);
    RegisterKeepsInv(w, 0);
    LockOnly(w, Reader(w, 0));
    hide Inv;
  }

  lemma LockOnly(w: World, c: Cursor)
    requires Inv(w) && |w.chain| == 1 && w.s.tailId == 0 && CursorOk(w.s, w.chain, c)
    ensures var f := w.chain[0];
            f.ptr in w.s.mem && Lock(w.s, c, 0) == Some((f.len, Touched(w.s, f.ptr, 1), Cursor(0, f.len, f.ptr, true)))
  {
    hide Linked, Kept, Owned, Accounted, Counted, Cursors, CursorOk, Lock, Touched;
    LockResult(w.s, w.chain, c, 0);
  }

  lemma FirstOfOne(w: World)
    requires Inv(w) && |w.chain| == 1
    ensures var p := w.chain[0].ptr; p == w.s.list != NULL && p in w.s.mem && w.s.mem[p].next == NULL && w.s.mem[p].users >= 0
  {
    assert Stored(w.s.mem, w.chain[0]) && w.s.mem[w.chain[0].ptr].next == Successor(w.chain, 0);
    hide Kept, Owned, Accounted, Cursors;
  }

  /** The only frame, pinned and evicted. */
  lemma PinnedFrameEvicted(w: World)
    requires Good(w) && w.s.allSize >= w.s.maxSize && w.s.pListHead == NULL
    requires |w.chain| == 1 && w.s.tailId == 0 && w.readers == map[]
    ensures Allowed(w, LockOp(0, 0)) && Step(w, LockOp(0, 0)).Some?
    ensures var v := Step(w, LockOp(0, 0)).value;
            Allowed(v, DeleteOp) && Step(v, DeleteOp).Some? && Stuck(Step(v, DeleteOp).value.s)
  {
    PinOnly(w);
    var v := Step(w, LockOp(0, 0)).value;
    DeletePinnedLast(v.s);
    StateAfterDelete(v, Delete(v.s).value);
    hide Good, Lock, Delete, Stuck, AfterDelete;
  }

  /** One frame as large as the limit, pinned and evicted: no lock, unlock or delete ever makes room again. */
  lemma StuckListIsReached(len: nat, more: seq<Op>)
    requires 0 < len < TWO31 && forall op :: op in more ==> !op.AddOp?
    ensures var start, ops := Initial(60, len), [AddOp(1, len), LockOp(0, 0), DeleteOp];
            && AllowedRun(start, ops) && Run(start, ops).Some?
            && Stuck(Run(start, ops).value.s)
            && Run(start, ops + more).Some? && !EnableAdd(Run(start, ops + more).value.s)
  {
    var start, ops := Initial(60, len), [AddOp(1, len), LockOp(0, 0), DeleteOp];
    OneFrameLinked(start, len, len);
    var one := Step(start, AddOp(1, len)).value;
    assert U32(len) == len;
    hide Good, Step, Allowed, AllowedRun, Run, EnableAdd, Stuck, Initial;
    PinnedFrameEvicted(one);
    var two := Step(one, LockOp(0, 0)).value;
    var last := Step(two, DeleteOp).value;
    assert ops == [AddOp(1, len)] + ([LockOp(0, 0)] + ([DeleteOp] + []));
    RunStep(start, AddOp(1, len), [LockOp(0, 0)] + ([DeleteOp] + []));
    RunStep(one, LockOp(0, 0), [DeleteOp] + []);
    RunStep(two, DeleteOp, []);
    RunStep(last, DeleteOp, []);
    StuckRun(last, more);
    RunOfConcat(start, ops, more);
  }
}
