/** Whole runs of the frame list: any number of readers, one writer, and the writer's eviction loop. */
module FrameRuns {
  import opened MachineInt
  import opened FrameList

  datatype Op =
    | AddOp(p: Ptr, len: nat)   // `p` is what `malloc` returns
    | DeleteOp
    | LockOp(r: nat, id: int)
    | UnlockOp(r: nat)

  function Reader(w: World, r: nat): Cursor {
    if r in w.readers then w.readers[r] else Cursor(0, 0, NULL, false)
  }

  predicate Full(w: World) { U32(w.s.itemNum + 1) > w.s.maxNum }

  function StepAdd(w: World, p: Ptr, len: nat): Option<World> {
    match Add(w.s, p, len)
    case None => None
    case Some((ret, t)) =>
      if Full(w) then
        match Delete(w.s)
        case None => None
        case Some(d) =>
          var v := AfterDelete(w, d);
          Some(if ret == 1 then AfterAppend(v, t, p, len) else v.(s := t))
      else Some(if ret == 1 then AfterAppend(w, t, p, len) else w.(s := t))
  }

  function StepUnlock(w: World, r: nat): Option<World> {
    var c := Reader(w, r);
    match Unlock(w.s, c)
    case None => None
    case Some((ret, t, d)) =>
      var v := w.(s := t, readers := w.readers[r := d]);
      Some(if w.chain == [] then v.(leaked := w.leaked + multiset{c.list})
           else if d.list == NULL then v.(evicted := Without(w.evicted, c.list))
           else v)
  }

  /** One critical section; `None` is a fault. */
  function Step(w: World, op: Op): Option<World> {
    match op
    case AddOp(p, len) => StepAdd(w, p, len)
    case DeleteOp => (match Delete(w.s) case None => None case Some(t) => Some(AfterDelete(w, t)))
    case LockOp(r, id) =>
      (match Lock(w.s, Reader(w, r), id)
       case None => None
       case Some((ret, t, d)) => Some(AfterLock(w, r, t, d)))
    case UnlockOp(r) => StepUnlock(w, r)
  }

  /** What holds between any two critical sections. */
  ghost predicate Good(w: World) {
    Inv(w) && HeadKnown(w) && (w.s.maxNum == 1 ==> w.s.pListHead == NULL)
  }

  /** An address that `malloc` may return to an add, which evicts first if the list is full. */
  predicate FreshFor(w: World, p: Ptr) {
    p != NULL && p !in (if Full(w) && Delete(w.s).Some? then Delete(w.s).value.mem else w.s.mem)
  }

  /**
   * `malloc` returns a fresh address, readers lock and unlock in turn, and a delete leaves a frame once
   * `pListHead` is set.
   */
  ghost predicate Allowed(w: World, op: Op) {
    match op
    case AddOp(p, len) => FreshFor(w, p)
    case DeleteOp => |w.chain| >= 2 || (|w.chain| == 1 && w.s.pListHead == NULL)
    case LockOp(r, id) => !Reader(w, r).holding
    case UnlockOp(r) => Reader(w, r).holding
  }

  function Initial(maxNum: nat, maxSize: nat): World {
    World(Shared(map[], maxNum, 0, 0, 0, 0, maxSize, 0, 0, NULL, NULL), [], [], map[], multiset{})
  }

  lemma InitialIsGood(maxNum: nat, maxSize: nat)
    requires 1 <= maxNum < TWO31
    ensures Good(Initial(maxNum, maxSize))
  {
  }

  lemma StepAddWhenFull(w: World, v: World, u: Shared, p: Ptr, len: nat)
    requires Full(w) && Delete(w.s) == Some(v.s) && v == AfterDelete(w, v.s)
    requires U32(v.s.itemNum + 1) <= v.s.maxNum && v.s.maxNum == w.s.maxNum && Append(v.s, p, len) == Some((1, u))
    ensures StepAdd(w, p, len) == Some(AfterAppend(v, u, p, len))
  {
    hide Delete, Append, AfterDelete, AfterAppend, U32;
  }

  lemma StepAddWithRoom(w: World, u: Shared, p: Ptr, len: nat)
    requires !Full(w) && Append(w.s, p, len) == Some((1, u))
    ensures StepAdd(w, p, len) == Some(AfterAppend(w, u, p, len))
  {
    hide Append, AfterAppend, U32;
  }

  lemma AddIsGood(w: World, p: Ptr, len: nat)
    requires Good(w) && FreshFor(w, p)
    ensures StepAdd(w, p, len).Some? && Good(StepAdd(w, p, len).value)
  {
    hide Inv, HeadKnown, Append, Delete, CanAppend, AppendedState, AfterDelete, AfterAppend, StepAdd;
    CountIsSmall(w);
    if Full(w) {
      FullDelete(w);
      var v := AfterDelete(w, Delete(w.s).value);
      AppendStep(v, p, len);
      StepAddWhenFull(w, v, AppendedState(v.s, v.chain, p, len), p, len);
    } else {
      EmptyHasNoHead(w);
      AppendStep(w, p, len);
      StepAddWithRoom(w, AppendedState(w.s, w.chain, p, len), p, len);
    }
    hide Good;
  }

  /** An add always succeeds, and drops the oldest frame exactly if the list already has as many as it may. */
  lemma AddDropsExactlyIf(w: World, p: Ptr, len: nat)
    requires Good(w) && FreshFor(w, p)
    ensures Add(w.s, p, len).Some? && Add(w.s, p, len).value.0 == 1 && StepAdd(w, p, len).Some?
    ensures var held := if |w.chain| == w.s.maxNum then w.chain[1..] else w.chain;
            |w.chain| <= w.s.maxNum && StepAdd(w, p, len).value.chain == held + [Frame(p, w.s.seqNo, len)]
  {
    hide Inv, HeadKnown, Append, Delete, CanAppend, AppendedState, StepAdd;
    CountIsSmall(w);
    if Full(w) {
      FullDelete(w);
      var v := AfterDelete(w, Delete(w.s).value);
      DroppedOldest(w);
      AppendStep(v, p, len);
      StepAddWhenFull(w, v, AppendedState(v.s, v.chain, p, len), p, len);
    } else {
      EmptyHasNoHead(w);
      AppendStep(w, p, len);
      StepAddWithRoom(w, AppendedState(w.s, w.chain, p, len), p, len);
    }
    hide Good;
  }

  lemma DroppedOldest(w: World)
    requires Good(w) && Full(w) && Delete(w.s).Some?
    ensures w.chain != [] && AfterDelete(w, Delete(w.s).value).chain == w.chain[1..]
    ensures Delete(w.s).value.seqNo == w.s.seqNo
  {
    CountIsSmall(w);
    hide Inv, HeadKnown;
  }

  lemma EmptyHasNoHead(w: World)
    requires HeadKnown(w)
    ensures w.chain == [] ==> w.s.pListHead == NULL
  {
  }

  lemma CountIsSmall(w: World)
    requires Inv(w)
    ensures w.s.itemNum == |w.chain| <= w.s.maxNum < TWO31 && U32(w.s.itemNum + 1) == w.s.itemNum + 1
    ensures w.chain == [] || !Full(w) || w.s.itemNum == w.s.maxNum
  {
  }

  lemma FullDelete(w: World)
    requires Good(w) && Full(w)
    ensures Delete(w.s).Some?
    ensures var v := AfterDelete(w, Delete(w.s).value);
            && Inv(v) && (HeadKnown(v) || v.chain == []) && v.s.itemNum + 1 <= v.s.maxNum && U32(v.s.itemNum + 1) <= v.s.maxNum
            && v.s == Delete(w.s).value && v.s.maxNum == w.s.maxNum && v.s.pListHead == w.s.pListHead
            && (v.chain == [] ==> v.s.pListHead == NULL)
  {
    CountIsSmall(w);
    DeleteKeepsInv(w);
    DeleteKeepsHead(w);
    CountIsSmall(AfterDelete(w, Delete(w.s).value));
    hide Inv, Add;
  }

  lemma AppendStep(v: World, p: Ptr, len: nat)
    requires Inv(v) && p != NULL && p !in v.s.mem && v.s.itemNum + 1 <= v.s.maxNum
    requires HeadKnown(v) || v.chain == []
    requires v.chain == [] || v.s.maxNum == 1 ==> v.s.pListHead == NULL
    ensures CanAppend(v.s, v.chain, p)
    ensures var u := AppendedState(v.s, v.chain, p, len);
            Append(v.s, p, len) == Some((1, u)) && Good(AfterAppend(v, u, p, len))
  {
    AppendKeepsInv(v, p, len);
    AppendKeepsHead(v, p, len);
    CountIsSmall(v);
    hide Inv, HeadKnown, Append, Appended;
  }

  lemma DeleteIsGood(w: World)
    requires Good(w) && Allowed(w, DeleteOp)
    ensures Delete(w.s).Some? && Good(AfterDelete(w, Delete(w.s).value))
  {
    DeleteKeepsInv(w);
    DeleteKeepsHead(w);
    DeleteKeepsLimits(w.s);
    hide Inv, HeadKnown, Delete;
  }

  lemma DeleteKeepsLimits(s: Shared)
    requires Delete(s).Some?
    ensures var t := Delete(s).value; t.maxNum == s.maxNum && t.maxSize == s.maxSize && t.pListHead == s.pListHead
  {
  }

  lemma HoldersOfRegister(readers: map<nat, Cursor>, r: nat, c: Cursor, p: Ptr)
    requires if r in readers then c == readers[r] else !c.holding
    ensures Holders(readers[r := c], p) == Holders(readers, p)
  {
  }

  /** A reader that was never heard of has an empty cursor. */
  lemma RegisterKeepsInv(w: World, r: nat)
    requires Inv(w)
    ensures Inv(w.(readers := w.readers[r := Reader(w, r)]))
    ensures CursorOk(w.s, w.chain, Reader(w, r))
  {
    assert CursorOk(w.s, w.chain, Reader(w, r)) by { hide Linked, Kept, Owned, Accounted, Counted; }
    hide Linked, Kept, Owned, Accounted, Holders, CursorOk;
    forall p | p in w.s.mem ensures Holders(w.readers[r := Reader(w, r)], p) == Holders(w.readers, p) {
      HoldersOfRegister(w.readers, r, Reader(w, r), p);
    }
  }

  lemma LockIsGood(w: World, r: nat, id: int)
    requires Good(w) && !Reader(w, r).holding
    ensures Step(w, LockOp(r, id)).Some? && Good(Step(w, LockOp(r, id)).value)
  {
    hide Linked, Kept, Owned, Accounted, Counted, Cursors, CursorOk, Lock, Reader;
    var c := Reader(w, r);
    RegisterKeepsInv(w, r);
    LockResult(w.s, w.chain, c, id);
    if w.s.tailId <= id < w.s.tailId + |w.chain| {
      LockFoundIsGood(w, r, id, c);
    }
  }

  lemma LockFoundIsGood(w: World, r: nat, id: int, c: Cursor)
    requires Good(w) && Inv(w.(readers := w.readers[r := c])) && !c.holding
    requires w.s.tailId <= id < w.s.tailId + |w.chain|
    ensures var f := w.chain[id - w.s.tailId];
            f.ptr in w.s.mem && Good(AfterLock(w, r, Touched(w.s, f.ptr, 1), Cursor(id, f.len, f.ptr, true)))
  {
    hide Inv;
    LockKeepsInv(w.(readers := w.readers[r := c]), r, id);
    var f := w.chain[id - w.s.tailId];
    var d := Cursor(id, f.len, f.ptr, true);
    assert w.readers[r := c][r := d] == w.readers[r := d];
  }

  /** The holder's cursor, and what its frame is. */
  lemma HolderOk(w: World, r: nat)
    requires Inv(w) && Reader(w, r).holding
    ensures r in w.readers && CursorOk(w.s, w.chain, w.readers[r]) && w.readers[r].list in w.s.mem
  {
    hide Linked, Kept, Owned, Accounted, Counted;
    assert CursorOk(w.s, w.chain, w.readers[r]);
  }

  lemma UnlockIsGood(w: World, r: nat)
    requires Good(w) && Reader(w, r).holding
    ensures StepUnlock(w, r).Some? && Good(StepUnlock(w, r).value)
  {
    hide Linked, Kept, Owned, Accounted, Counted, Cursors, CursorOk, Unlock, Touched;
    HolderOk(w, r);
    var c := w.readers[r];
    UnlockResult(w.s, w.chain, c);
    if w.chain == [] {
      LeakKeepsInv(w, r);
    } else if c.id >= w.s.tailId || w.s.mem[c.list].users > 1 {
      ReleaseKeepsInv(w, r);
      HeldIsNotNull(w.s, w.chain, c);
      TouchKeepsRest(w.s, c.list);
    } else {
      FreeKeepsInv(w, r);
    }
    hide Inv;
  }

  lemma HeldIsNotNull(s: Shared, chain: seq<Frame>, c: Cursor)
    requires CursorOk(s, chain, c) && c.holding
    ensures c.list != NULL
  {
  }

  lemma TouchKeepsRest(s: Shared, p: Ptr)
    requires p in s.mem
    ensures var t := Touched(s, p, -1); t.maxNum == s.maxNum && t.pListHead == s.pListHead
  {
  }

  lemma StepIsGood(w: World, op: Op)
    requires Good(w) && Allowed(w, op)
    ensures Step(w, op).Some? && Good(Step(w, op).value)
  {
    hide Good, StepAdd, StepUnlock, Delete, Lock, FreshFor;
    match op {
      case AddOp(p, len) => AddIsGood(w, p, len);
      case DeleteOp => DeleteIsGood(w);
      case LockOp(r, id) => LockIsGood(w, r, id);
      case UnlockOp(r) => UnlockIsGood(w, r);
    }
  }

  /** A run, and whether each of its steps was allowed when it was taken. */
  function Run(w: World, ops: seq<Op>): Option<World>
    decreases |ops|
  {
    if ops == [] then Some(w)
    else match Step(w, ops[0]) case None => None case Some(v) => Run(v, ops[1..])
  }

  ghost predicate AllowedRun(w: World, ops: seq<Op>)
    decreases |ops|
  {
    ops == [] || (Allowed(w, ops[0]) && (Step(w, ops[0]).Some? ==> AllowedRun(Step(w, ops[0]).value, ops[1..])))
  }

  /** No allowed run ever touches memory that is not allocated, and every run ends in a consistent list. */
  lemma {:induction false} RunsAreSafe(w: World, ops: seq<Op>)
    requires Good(w) && AllowedRun(w, ops)
    ensures Run(w, ops).Some? && Good(Run(w, ops).value)
    decreases |ops|
  {
    hide Good, Allowed, Step;
    if ops != [] {
      StepIsGood(w, ops[0]);
      RunsAreSafe(Step(w, ops[0]).value, ops[1..]);
    }
  }

  /** Any allowed run from `sll_init_list` on. */
  lemma NewListRunsAreSafe(maxNum: nat, maxSize: nat, ops: seq<Op>)
    requires 1 <= maxNum < TWO31 && AllowedRun(Initial(maxNum, maxSize), ops)
    ensures Run(Initial(maxNum, maxSize), ops).Some? && Good(Run(Initial(maxNum, maxSize), ops).value)
  {
    InitialIsGood(maxNum, maxSize);
    hide Good, Run, AllowedRun;
    RunsAreSafe(Initial(maxNum, maxSize), ops);
  }

  /** What a consistent list promises, in plain terms. */
  lemma GoodMeans(w: World)
    requires Good(w)
    ensures forall i :: 0 <= i < |w.chain| ==> w.chain[i].id == w.s.tailId + i
    ensures w.s.itemNum == |w.chain|
    ensures forall r :: r in w.readers && w.readers[r].holding ==> w.readers[r].list in w.s.mem
    ensures forall f :: f in w.evicted ==> f.ptr in w.s.mem && w.s.mem[f.ptr].users > 0
    ensures w.s.mem.Keys == Addresses(w.chain) + Addresses(w.evicted)
    ensures w.s.notFree == U32(Bytes(w.evicted)) && w.s.allSize == U32(Bytes(w.chain) + Bytes(w.evicted))
  {
    hide Linked, Kept, Cursors, Counted, Bytes, Addresses, HeadKnown;
    ChainMeans(w.s, w.chain);
    EvictedMeans(w.s, w.evicted);
    ReadersMean(w.s, w.chain, w.readers);
  }

  lemma ChainMeans(s: Shared, chain: seq<Frame>)
    requires Linked(s, chain)
    ensures s.itemNum == |chain| && forall i :: 0 <= i < |chain| ==> chain[i].id == s.tailId + i
  {
    forall i | 0 <= i < |chain| ensures chain[i].id == s.tailId + i {
      assert Stored(s.mem, chain[i]);
    }
  }

  lemma EvictedMeans(s: Shared, evicted: seq<Frame>)
    requires Kept(s, evicted)
    ensures forall f :: f in evicted ==> f.ptr in s.mem && s.mem[f.ptr].users > 0
  {
  }

  lemma ReadersMean(s: Shared, chain: seq<Frame>, readers: map<nat, Cursor>)
    requires Cursors(s, chain, readers)
    ensures forall r :: r in readers && readers[r].holding ==> readers[r].list in s.mem
  {
    forall r | r in readers && readers[r].holding ensures readers[r].list in s.mem {
      assert CursorOk(s, chain, readers[r]);
    }
  }
}
