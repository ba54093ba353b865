/**
 * The frame list as the program runs it: the fields of the shared structure are updated in
 * place and the chain is walked by following `next`. Each method is proved against the
 * function of FrameList that describes its critical section.
 */
module SharedList {
  import opened MachineInt
  import opened FrameList
  import opened FrameRuns
  import opened FrameEviction

  class FrameQueue {
    var mem: map<Ptr, Node>
    var maxNum: nat
    var itemNum: nat
    var headId: int
    var tailId: int
    var seqNo: int
    var maxSize: nat
    var allSize: nat
    var notFree: nat
    var list: Ptr
    var pListHead: Ptr

    function Snapshot(): Shared
      reads this
    {
      Shared(mem, maxNum, itemNum, headId, tailId, seqNo, maxSize, allSize, notFree, list, pListHead)
    }

    /** `sll_init_list` */
    constructor (maxItems: nat, maxBytes: nat)
      ensures Snapshot() == Initial(maxItems, maxBytes).s
    {
      mem, maxNum, itemNum, headId, tailId, seqNo := map[], maxItems, 0, 0, 0, 0;
      maxSize, allSize, notFree, list, pListHead := maxBytes, 0, 0, NULL, NULL;
    }

    /** `sll_list_enable_add_item` */
    method EnableAddItem() returns (ok: bool)
      ensures ok == EnableAdd(Snapshot())
    {
      if allSize >= maxSize {
        return false;
      }
      ok := U32(itemNum + 2) < maxNum;
    }

    /** `sll_del_list_tail_item` */
    method DeleteTail()
      requires Delete(Snapshot()).Some?
      modifies this
      ensures Some(Snapshot()) == Delete(old(Snapshot()))
    {
      var dataLen, realFree := 0, false;
      if list != NULL {
        var cur := list;
        var node := mem[cur];
        list := node.next;
        dataLen := node.len;
        if node.users <= 0 {
          mem := mem - {cur};
          realFree := true;
        } else {
          notFree := U32(notFree + dataLen);
        }
      }
      tailId := tailId + 1;
      itemNum := U32(itemNum - 1);
      if realFree {
        allSize := U32(allSize - dataLen);
      }
    }

    /** The walk to the newest node. */
    method WalkToLast() returns (cur: Ptr)
      requires LastNode(mem, list, |mem|).Some?
      ensures LastNode(mem, list, |mem|) == Some(cur) && cur in mem
    {
      cur := list;
      ghost var steps: nat := |mem|;
      while mem[cur].next != NULL
        invariant LastNode(mem, list, |mem|) == LastNode(mem, cur, steps)
        invariant cur in mem
        decreases steps
      {
        cur := mem[cur].next;
        steps := steps - 1;
      }
    }

    /** The part of adding after the test of the count; `p` is what `malloc` returned. */
    method AppendItem(p: Ptr, len: nat) returns (ret: int)
      requires Append(Snapshot(), p, len).Some?
      modifies this
      ensures Some((ret, Snapshot())) == Append(old(Snapshot()), p, len)
    {
      mem := mem[p := Node(seqNo, len, 0, NULL)];
      headId := seqNo;
      seqNo := seqNo + 1;
      itemNum := U32(itemNum + 1);
      if list == NULL {
        list := p;
      } else if pListHead != NULL {
        mem := mem[pListHead := mem[pListHead].(next := p)];
        pListHead := p;
      } else {
        var cur := WalkToLast();
        mem := mem[cur := mem[cur].(next := p)];
        pListHead := p;
      }
      allSize := U32(allSize + len);
      ret := 1;
    }

    /** `sll_add_list_item_no_malloc` */
    method AddItem(p: Ptr, len: nat) returns (ret: int)
      requires Add(Snapshot(), p, len).Some?
      modifies this
      ensures Some((ret, Snapshot())) == Add(old(Snapshot()), p, len)
    {
      hide Append, Delete;
      if U32(itemNum + 1) > maxNum {
        DeleteTail();
        if U32(itemNum + 1) > maxNum {
          return SLL_ITEM_ENOUGH_ERR;
        }
      }
      ret := AppendItem(p, len);
    }

    /** The walk from `start` to the node with the given id. */
    method WalkTo(start: Ptr, id: int) returns (found: bool, cur: Ptr)
      requires !Find(mem, start, id, |mem|).Fault?
      ensures Find(mem, start, id, |mem|) == if found then Found(cur) else Missing
      ensures found ==> cur in mem
    {
      cur := start;
      ghost var steps: nat := |mem|;
      found := mem[cur].id == id;
      while !found && mem[cur].next != NULL
        invariant cur in mem && found == (mem[cur].id == id)
        invariant Find(mem, start, id, |mem|) == Find(mem, cur, id, steps)
        decreases steps
      {
        cur := mem[cur].next;
        steps := steps - 1;
        found := mem[cur].id == id;
      }
    }

    /** `sll_get_list_item_lock` */
    method LockItem(c: Cursor, id: int) returns (ret: int, d: Cursor)
      requires Lock(Snapshot(), c, id).Some?
      modifies this
      ensures Some((ret, Snapshot(), d)) == Lock(old(Snapshot()), c, id)
    {
      hide Find;
      ret, d := SLL_ITEM_EMPTY_ERR, c;
      if id < tailId || id > headId || list == NULL {
        return;
      }
      var cur := list;
      if tailId <= c.id < headId && c.id + 1 == id && c.list != NULL {
        var tmp := mem[c.list].next;
        if tmp != NULL && mem[tmp].id == id {
          cur := tmp;
        }
      }
      var found;
      found, cur := WalkTo(cur, id);
      if !found {
        return;
      }
      var node := mem[cur];
      mem := mem[cur := node.(users := node.users + 1)];
      return node.len, Cursor(node.id, node.len, cur, true);
    }

    method UnlockEvicted(c: Cursor) returns (ret: int, d: Cursor)
      requires UnlockOutside(Snapshot(), c).Some?
      modifies this
      ensures Some((ret, Snapshot(), d)) == UnlockOutside(old(Snapshot()), c)
    {
      ret, d := SLL_ITEM_EMPTY_ERR, c.(holding := false);
      var node := mem[c.list];
      if node.users - 1 <= 0 {
        mem := mem - {c.list};
        d := d.(list := NULL);
        allSize := U32(allSize - c.len);
        notFree := U32(notFree - c.len);
      } else {
        mem := mem[c.list := node.(users := node.users - 1)];
      }
    }

    /** `sll_get_list_item_unlock` */
    method UnlockItem(c: Cursor) returns (ret: int, d: Cursor)
      requires Unlock(Snapshot(), c).Some?
      modifies this
      ensures Some((ret, Snapshot(), d)) == Unlock(old(Snapshot()), c)
    {
      hide Find, UnlockOutside;
      if list == NULL {
        return SLL_ITEM_EMPTY_ERR, c.(holding := false);
      }
      if tailId <= c.id <= headId {
        var cur := list;
        if c.list != NULL && mem[c.list].id == c.id {
          cur := c.list;
        }
        var found;
        found, cur := WalkTo(cur, c.id);
        if found {
          var node := mem[cur];
          mem := mem[cur := node.(users := node.users - 1)];
          return 0, c.(holding := false);
        }
      }
      ret, d := UnlockEvicted(c);
    }

    /** The loop of `HisiInsertVideoData`: the oldest frames go, and no more of them than needed. */
    method MakeRoom(ghost w: World) returns (ghost k: nat)
      requires Inv(w) && w.s == Snapshot() && 3 <= maxNum && Pinned(w) < maxSize < TWO32
      modifies this
      ensures k <= |w.chain| && RoomAfter(w, k) && Evict(w, k).value.s == Snapshot()
      ensures forall j: nat :: j < k ==> !RoomAfter(w, j)
      ensures Bytes(w.chain) + Bytes(w.evicted) < TWO32 ==>
                MeetsLimits(w, k) && forall j: nat :: j < k ==> !MeetsLimits(w, j)
    {
      hide Inv, Delete, EnableAdd, Pinned, Evict;
      k := 0;
      EvictKeepsInv(w, 0);
      EvictNone(w);
      var ok := EnableAddItem();
      while !ok
        invariant k <= |w.chain| && Evict(w, k).Some? && Evict(w, k).value.s == Snapshot()
        invariant ok == EnableAdd(Snapshot())
        invariant forall j: nat :: j < k ==> !RoomAfter(w, j)
        decreases |w.chain| - k
      {
        EvictKeepsInv(w, k);
        RoomOrMore(w, k);
        ghost var v := Evict(w, k).value;
        EvictOnce(v);
        DeleteTail();
        EvictOneMore(w, k);
        k := k + 1;
        ok := EnableAddItem();
      }
      if Bytes(w.chain) + Bytes(w.evicted) < TWO32 {
        LeastRoom(w, k);
      }
    }

    /** `HisiInsertVideoData`: after the room is made the add evicts nothing more. */
    method InsertVideoData(ghost w: World, p: Ptr, len: nat) returns (ret: int, ghost k: nat)
      requires Inv(w) && w.s == Snapshot() && HeadKnown(w) && 3 <= maxNum && Pinned(w) < maxSize < TWO32
      requires p != NULL && forall j: nat :: j <= |w.chain| && RoomAfter(w, j) ==> p !in Evict(w, j).value.s.mem
      modifies this
      ensures k <= |w.chain| && RoomAfter(w, k) && forall j: nat :: j < k ==> !RoomAfter(w, j)
      ensures Bytes(w.chain) + Bytes(w.evicted) < TWO32 ==>
                MeetsLimits(w, k) && forall j: nat :: j < k ==> !MeetsLimits(w, j)
      ensures ret == 1
      ensures var v := Evict(w, k).value;
              v.chain == w.chain[k..] && CanAppend(v.s, v.chain, p) && Snapshot() == AppendedState(v.s, v.chain, p, len)
              && Inv(AfterAppend(v, Snapshot(), p, len))
    {
      hide Inv, Delete, EnableAdd, Pinned, Evict, Append, HeadKnown;
      k := MakeRoom(w);
      EvictKeepsInv(w, k);
      HeadAfterEviction(w, k);
      ghost var v := Evict(w, k).value;
      RoomIsNotFull(v);
      NothingLeft(w, k);
      CountIsSmall(v);
      AppendKeepsInv(v, p, len);
      ret := AddItem(p, len);
    }
  }

  /** The fewest evictions that make room are the fewest that meet the limits. */
  lemma LeastRoom(w: World, k: nat)
    requires Inv(w) && k <= |w.chain| && Bytes(w.chain) + Bytes(w.evicted) < TWO32
    requires RoomAfter(w, k) && forall j: nat :: j < k ==> !RoomAfter(w, j)
    ensures MeetsLimits(w, k) && forall j: nat :: j < k ==> !MeetsLimits(w, j)
  {
    hide Inv, Bytes, RoomAfter, MeetsLimits;
    RoomAfterExactlyIf(w, k);
    forall j: nat | j < k ensures !MeetsLimits(w, j) {
      RoomAfterExactlyIf(w, j);
    }
  }

  lemma EvictNone(w: World)
    ensures Evict(w, 0) == Some(w)
  {
  }

  lemma NothingLeft(w: World, k: nat)
    requires k <= |w.chain|
    ensures k < |w.chain| || w.chain[k..] == []
  {
  }

  /** While there is no room a frame is left to evict. */
  lemma RoomOrMore(w: World, k: nat)
    requires Inv(w) && 3 <= w.s.maxNum && Pinned(w) < w.s.maxSize < TWO32
    requires k <= |w.chain| && !RoomAfter(w, k)
    ensures k < |w.chain|
  {
    hide Inv, Pinned, RoomAfter;
    EvictionEnds(w);
  }

  lemma {:induction false} EvictOneMore(w: World, k: nat)
    requires Evict(w, k).Some? && Delete(Evict(w, k).value.s).Some?
    ensures var v := Evict(w, k).value; Evict(w, k + 1) == Some(AfterDelete(v, Delete(v.s).value))
    decreases k
  {
    hide Delete, AfterDelete;
    if k == 0 {
      var v := AfterDelete(w, Delete(w.s).value);
      assert Evict(v, 0) == Some(v);
    } else {
      EvictOneMore(AfterDelete(w, Delete(w.s).value), k - 1);
    }
  }
}
