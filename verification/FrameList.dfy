/**
 * The shared list of encoded frames: one writer appends and evicts, readers pin
 * frames while they send them. `malloc` and `free` are modelled: a node lives at
 * an address of `mem`, and reading through an address that is not allocated is a fault.
 */
module FrameList {
  import opened MachineInt

  datatype Option<T> = None | Some(value: T)

  const SLL_ITEM_ENOUGH_ERR := -101
  const SLL_ITEM_EMPTY_ERR := -102

  type Ptr = nat
  const NULL: Ptr := 0

  /** `SINGLY_LINKED_LIST_ST` */
  datatype Node = Node(id: int, len: nat, users: int, next: Ptr)

  /** `SINGLY_LINKED_GET_DATA_ST`; `holding` between a lock that found its frame and the unlock. */
  datatype Cursor = Cursor(id: int, len: nat, list: Ptr, holding: bool)

  /** `SINGLY_LINKED_LIST_INFO_ST`, and the memory its nodes live in. */
  datatype Shared = Shared(
    mem: map<Ptr, Node>,
    maxNum: nat, itemNum: nat, headId: int, tailId: int, seqNo: int,
    maxSize: nat, allSize: nat, notFree: nat,
    list: Ptr, pListHead: Ptr)

  // ----- the operations, each one critical section of the list's lock; `None` is a fault -----

  /** `sll_list_enable_add_item` */
  predicate EnableAdd(s: Shared) {
    s.allSize < s.maxSize && U32(s.itemNum + 2) < s.maxNum
  }

  /** `sll_del_list_tail_item`: `item_num` is unsigned, so its test for an empty list never succeeds. */
  function Delete(s: Shared): Option<Shared> {
    var t := s.(tailId := s.tailId + 1, itemNum := U32(s.itemNum - 1));
    if s.list == NULL then Some(t)
    else if s.list !in s.mem then None
    else
      var cur := s.mem[s.list];
      if cur.users <= 0 then Some(t.(list := cur.next, mem := s.mem - {s.list}, allSize := U32(s.allSize - cur.len)))
      else Some(t.(list := cur.next, notFree := U32(s.notFree + cur.len)))
  }

  /** The node where the walk along `next` from `p` stops; `steps` bounds the walk. */
  function LastNode(mem: map<Ptr, Node>, p: Ptr, steps: nat): Option<Ptr>
    decreases steps
  {
    if p !in mem then None
    else if mem[p].next == NULL then Some(p)
    else if steps == 0 then None
    else LastNode(mem, mem[p].next, steps - 1)
  }

  /** Hanging the new node `p` behind the newest one. */
  function Link(s: Shared, p: Ptr): Option<Shared> {
    if s.list == NULL then Some(s.(list := p))
    else
      var last := if s.pListHead != NULL then (if s.pListHead in s.mem then Some(s.pListHead) else None)
                  else LastNode(s.mem, s.list, |s.mem|);
      match last
      case None => None
      case Some(q) =>
        if q in s.mem then Some(s.(mem := s.mem[q := s.mem[q].(next := p)], pListHead := p)) else None
  }

  /** `sll_add_list_item_no_malloc`, given the address `malloc` returns. */
  function Add(s: Shared, p: Ptr, len: nat): Option<(int, Shared)> {
    if U32(s.itemNum + 1) > s.maxNum then
      match Delete(s)
      case None => None
      case Some(t) => if U32(t.itemNum + 1) > t.maxNum then Some((SLL_ITEM_ENOUGH_ERR, t)) else Append(t, p, len)
    else Append(s, p, len)
  }

  function Append(s: Shared, p: Ptr, len: nat): Option<(int, Shared)> {
    var node := Node(s.seqNo, len, 0, NULL);
    var t := s.(mem := s.mem[p := node], seqNo := s.seqNo + 1, headId := s.seqNo, itemNum := U32(s.itemNum + 1));
    match Link(t, p)
    case None => None
    case Some(u) => Some((1, u.(allSize := U32(u.allSize + len))))
  }

  datatype Search = Fault | Missing | Found(at: Ptr)

  /** The walk from `p` to the node with the given id. */
  function Find(mem: map<Ptr, Node>, p: Ptr, id: int, steps: nat): Search
    decreases steps
  {
    if p !in mem then Fault
    else if mem[p].id == id then Found(p)
    else if mem[p].next == NULL then Missing
    else if steps == 0 then Fault
    else Find(mem, mem[p].next, id, steps - 1)
  }

  /** Where `sll_get_list_item_lock` starts looking: behind the reader's last frame, if that is still linked. */
  function LockStart(s: Shared, c: Cursor, id: int): Option<Ptr> {
    if s.tailId <= c.id < s.headId && c.id + 1 == id && c.list != NULL then
      if c.list !in s.mem then None
      else
        var tmp := s.mem[c.list].next;
        if tmp == NULL then Some(s.list)
        else if tmp !in s.mem then None
        else Some(if s.mem[tmp].id == id then tmp else s.list)
    else Some(s.list)
  }

  /** `sll_get_list_item_lock` */
  function Lock(s: Shared, c: Cursor, id: int): Option<(int, Shared, Cursor)> {
    if id < s.tailId || id > s.headId || s.list == NULL then Some((SLL_ITEM_EMPTY_ERR, s, c))
    else
      match LockStart(s, c, id)
      case None => None
      case Some(start) =>
        match Find(s.mem, start, id, |s.mem|)
        case Fault => None
        case Missing => Some((SLL_ITEM_EMPTY_ERR, s, c))
        case Found(p) =>
          if p !in s.mem then None else
          var n := s.mem[p];
          Some((n.len, s.(mem := s.mem[p := n.(users := n.users + 1)]), Cursor(n.id, n.len, p, true)))
  }

  /** Where `sll_get_list_item_unlock` finds a frame that is still in the window. */
  function UnlockStart(s: Shared, c: Cursor): Option<Ptr> {
    if c.list == NULL then Some(s.list)
    else if c.list !in s.mem then None
    else Some(if s.mem[c.list].id == c.id then c.list else s.list)
  }

  /** `sll_get_list_item_unlock` */
  function Unlock(s: Shared, c: Cursor): Option<(int, Shared, Cursor)> {
    if s.list == NULL then Some((SLL_ITEM_EMPTY_ERR, s, c.(holding := false)))
    else if s.tailId <= c.id <= s.headId then
      match UnlockStart(s, c)
      case None => None
      case Some(start) =>
        match Find(s.mem, start, c.id, |s.mem|)
        case Fault => None
        case Missing => UnlockOutside(s, c)
        case Found(p) =>
          if p !in s.mem then None else
          var n := s.mem[p];
          Some((0, s.(mem := s.mem[p := n.(users := n.users - 1)]), c.(holding := false)))
    else UnlockOutside(s, c)
  }

  /** The frame has been evicted: the last reader out frees it. */
  function UnlockOutside(s: Shared, c: Cursor): Option<(int, Shared, Cursor)> {
    if c.list !in s.mem then None
    else
      var n := s.mem[c.list];
      if n.users - 1 <= 0 then
        Some((SLL_ITEM_EMPTY_ERR,
              s.(mem := s.mem - {c.list}, allSize := U32(s.allSize - c.len), notFree := U32(s.notFree - c.len)),
              c.(list := NULL, holding := false)))
      else
        Some((SLL_ITEM_EMPTY_ERR, s.(mem := s.mem[c.list := n.(users := n.users - 1)]), c.(holding := false)))
  }

  // ----- runs: the list together with its readers -----

  /** A frame, wherever it is kept. */
  datatype Frame = Frame(ptr: Ptr, id: int, len: nat)

  datatype World = World(
    s: Shared,
    chain: seq<Frame>,           // the linked frames, oldest first
    evicted: seq<Frame>,         // unlinked while pinned, not yet freed
    readers: map<nat, Cursor>,
    leaked: multiset<Ptr>)       // pins whose unlock had no effect

  function Bytes(frames: seq<Frame>): nat {
    if frames == [] then 0 else frames[0].len + Bytes(frames[1..])
  }

  lemma {:induction false} BytesOfConcat(a: seq<Frame>, b: seq<Frame>)
    ensures Bytes(a + b) == Bytes(a) + Bytes(b)
  {
    if a == [] {
      assert a + b == b;
    } else {
      assert (a + b)[1..] == a[1..] + b;
      BytesOfConcat(a[1..], b);
    }
  }

  function Addresses(frames: seq<Frame>): set<Ptr> { set f | f in frames :: f.ptr }

  /** A frame's node is allocated and describes it. */
  predicate Stored(mem: map<Ptr, Node>, f: Frame) {
    f.ptr != NULL && f.ptr in mem && mem[f.ptr].id == f.id && mem[f.ptr].len == f.len
  }

  function Successor(chain: seq<Frame>, i: nat): Ptr
    requires i < |chain|
  {
    if i + 1 < |chain| then chain[i + 1].ptr else NULL
  }

  /** Consecutive ids from `tail_id`, counted by `item_num`, linked in order. */
  ghost predicate Linked(s: Shared, chain: seq<Frame>) {
    && 1 <= s.maxNum < TWO31
    && |chain| == s.itemNum <= s.maxNum
    && s.list == (if chain == [] then NULL else chain[0].ptr)
    && (forall i :: 0 <= i < |chain| ==> Stored(s.mem, chain[i]) && chain[i].id == s.tailId + i)
    && (forall i :: 0 <= i < |chain| ==> s.mem[chain[i].ptr].next == Successor(chain, i))
    && 0 <= s.tailId && s.seqNo == s.tailId + |chain|
    && s.headId == (if s.seqNo == 0 then 0 else s.seqNo - 1)
  }

  /** Evicted frames are kept only while somebody uses them. */
  ghost predicate Kept(s: Shared, evicted: seq<Frame>) {
    && (forall f :: f in evicted ==> Stored(s.mem, f) && f.id < s.tailId && s.mem[f.ptr].users > 0)
    && (forall i, j :: 0 <= i < j < |evicted| ==> evicted[i].ptr != evicted[j].ptr)
  }

  /** Nothing is allocated but the frames: no leak of memory, and no frame is freed. */
  ghost predicate Owned(s: Shared, chain: seq<Frame>, evicted: seq<Frame>) {
    s.mem.Keys == Addresses(chain) + Addresses(evicted)
  }

  /** The byte counters, which are 32 bits wide. */
  ghost predicate Accounted(s: Shared, chain: seq<Frame>, evicted: seq<Frame>) {
    s.allSize == U32(Bytes(chain) + Bytes(evicted)) && s.notFree == U32(Bytes(evicted))
  }

  function Holders(readers: map<nat, Cursor>, p: Ptr): set<nat> {
    set r | r in readers && readers[r].holding && readers[r].list == p
  }

  /** Reference counts are numbers of readers, plus the pins that were never given back. */
  ghost predicate Counted(s: Shared, readers: map<nat, Cursor>, leaked: multiset<Ptr>) {
    && (forall p :: p in s.mem ==> s.mem[p].users == |Holders(readers, p)| + leaked[p])
    && (forall p :: p in leaked ==> p in s.mem)
  }

  /** A cursor whose id is in the window points at the linked frame with that id; what a reader holds is allocated. */
  ghost predicate CursorOk(s: Shared, chain: seq<Frame>, c: Cursor) {
    && (c.list != NULL ==> c.id < s.tailId + |chain| && (s.tailId <= c.id ==> c.list == chain[c.id - s.tailId].ptr))
    && (c.holding ==> Stored(s.mem, Frame(c.list, c.id, c.len)))
  }

  ghost predicate Cursors(s: Shared, chain: seq<Frame>, readers: map<nat, Cursor>) {
    forall r :: r in readers ==> CursorOk(s, chain, readers[r])
  }

  ghost predicate Inv(w: World) {
    && Linked(w.s, w.chain) && Kept(w.s, w.evicted) && Owned(w.s, w.chain, w.evicted)
    && Accounted(w.s, w.chain, w.evicted) && Counted(w.s, w.readers, w.leaked) && Cursors(w.s, w.chain, w.readers)
  }

  /** `pListHead` is the newest frame, or was never needed. */
  ghost predicate HeadKnown(w: World) {
    if w.s.pListHead == NULL then |w.chain| <= 1
    else w.chain != [] && w.s.pListHead == w.chain[|w.chain| - 1].ptr
  }

  // ----- eviction -----

  lemma LinkedApart(s: Shared, chain: seq<Frame>)
    requires Linked(s, chain)
    ensures forall i, j :: 0 <= i < j < |chain| ==> chain[i].ptr != chain[j].ptr
  {
    forall i, j | 0 <= i < j < |chain| ensures chain[i].ptr != chain[j].ptr {
      assert Stored(s.mem, chain[i]) && Stored(s.mem, chain[j]);
    }
  }

  lemma KeptApart(s: Shared, chain: seq<Frame>, evicted: seq<Frame>, i: nat, f: Frame)
    requires Linked(s, chain) && Kept(s, evicted) && i < |chain| && f in evicted
    ensures chain[i].ptr != f.ptr
  {
    assert Stored(s.mem, chain[i]) && Stored(s.mem, f);
  }

  /** The frames after the oldest is unlinked, `t` being the shared state that `Delete` leaves. */
  function AfterDelete(w: World, t: Shared): World {
    if w.chain == [] then w.(s := t)
    else if w.chain[0].ptr in w.s.mem && w.s.mem[w.chain[0].ptr].users > 0 then
      w.(s := t, chain := w.chain[1..], evicted := w.evicted + [w.chain[0]])
    else w.(s := t, chain := w.chain[1..])
  }

  lemma LinkedAfterDelete(w: World, t: Shared)
    requires Linked(w.s, w.chain) && w.chain != [] && Delete(w.s) == Some(t)
    ensures Linked(t, w.chain[1..])
  {
    var rest := w.chain[1..];
    LinkedApart(w.s, w.chain);
    assert Stored(w.s.mem, w.chain[0]);
    assert t.list == w.s.mem[w.chain[0].ptr].next == Successor(w.chain, 0);
    forall i | 0 <= i < |rest|
      ensures Stored(t.mem, rest[i]) && rest[i].id == t.tailId + i && t.mem[rest[i].ptr].next == Successor(rest, i)
    {
      assert rest[i] == w.chain[i + 1] && Stored(w.s.mem, w.chain[i + 1]);
      assert Successor(w.chain, i + 1) == Successor(rest, i);
    }
  }

  lemma KeptAfterDelete(w: World, t: Shared)
    requires Linked(w.s, w.chain) && Kept(w.s, w.evicted) && w.chain != [] && Delete(w.s) == Some(t)
    ensures Kept(t, AfterDelete(w, t).evicted)
  {
    var tail := w.chain[0];
    assert Stored(w.s.mem, tail);
    forall f | f in w.evicted ensures f.ptr != tail.ptr {
      KeptApart(w.s, w.chain, w.evicted, 0, f);
    }
  }

  lemma OwnedAfterDelete(w: World, t: Shared)
    requires Linked(w.s, w.chain) && Kept(w.s, w.evicted) && Owned(w.s, w.chain, w.evicted) && w.chain != [] && Delete(w.s) == Some(t)
    ensures Owned(t, AfterDelete(w, t).chain, AfterDelete(w, t).evicted)
  {
    var tail, rest := w.chain[0], w.chain[1..];
    assert Stored(w.s.mem, tail);
    assert w.s.list == tail.ptr;
    forall f | f in w.evicted ensures f.ptr != tail.ptr { KeptApart(w.s, w.chain, w.evicted, 0, f); }
    forall f | f in rest ensures f.ptr != tail.ptr { LinkedApart(w.s, w.chain); }
    hide Linked, Kept;
    AddressesOfCons(w.chain);
    AddressesWithLast(w.evicted, tail);
    assert tail.ptr !in Addresses(rest) && tail.ptr !in Addresses(w.evicted);
    hide Addresses;
  }

  lemma AddressesOfCons(chain: seq<Frame>)
    requires chain != []
    ensures Addresses(chain) == {chain[0].ptr} + Addresses(chain[1..])
  {
    assert chain == [chain[0]] + chain[1..];
  }

  lemma AddressesWithLast(frames: seq<Frame>, f: Frame)
    ensures Addresses(frames + [f]) == Addresses(frames) + {f.ptr}
  {
  }

  /** The oldest frame is where `list` points. */
  ghost predicate Oldest(s: Shared, chain: seq<Frame>) {
    chain != [] && Stored(s.mem, chain[0]) && s.list == chain[0].ptr
  }

  lemma CountersAfterDelete(w: World, t: Shared)
    requires Oldest(w.s, w.chain) && Delete(w.s) == Some(t)
    ensures var tail, pinned := w.chain[0], w.s.mem[w.chain[0].ptr].users > 0;
            && t.allSize == (if pinned then w.s.allSize else U32(w.s.allSize - tail.len))
            && t.notFree == (if pinned then U32(w.s.notFree + tail.len) else w.s.notFree)
            && AfterDelete(w, t).chain == w.chain[1..]
            && AfterDelete(w, t).evicted == w.evicted + (if pinned then [tail] else [])
  {
    hide U32;
  }

  lemma CountersMove(tail: nat, rest: nat, evicted: nat)
    ensures U32(U32(tail + rest + evicted) - tail) == U32(rest + evicted)
    ensures U32(U32(evicted) + tail) == U32(evicted + tail)
  {
    WrapSum(tail + rest + evicted, tail);
    WrapSum(evicted, tail);
  }

  lemma AccountedAfterDelete(w: World, t: Shared)
    requires Oldest(w.s, w.chain) && Accounted(w.s, w.chain, w.evicted) && Delete(w.s) == Some(t)
    ensures Accounted(t, AfterDelete(w, t).chain, AfterDelete(w, t).evicted)
  {
    hide Delete, AfterDelete, Stored, U32;
    var tail := w.chain[0];
    CountersAfterDelete(w, t);
    BytesOfConcat(w.evicted, [tail]);
    assert Bytes([tail]) == tail.len && Bytes(w.chain) == tail.len + Bytes(w.chain[1..]);
    assert w.evicted + [] == w.evicted;
    CountersMove(tail.len, Bytes(w.chain[1..]), Bytes(w.evicted));
    hide Bytes;
  }

  lemma CountedAfterDelete(w: World, t: Shared)
    requires Oldest(w.s, w.chain) && Counted(w.s, w.readers, w.leaked) && Delete(w.s) == Some(t)
    ensures Counted(t, w.readers, w.leaked)
  {
    hide Holders;
  }

  /** A frame without users has no holder, so no reader loses what it holds. */
  lemma CursorsAfterDelete(w: World, t: Shared)
    requires Oldest(w.s, w.chain) && Counted(w.s, w.readers, w.leaked) && Cursors(w.s, w.chain, w.readers)
    requires Delete(w.s) == Some(t)
    ensures Cursors(t, w.chain[1..], w.readers)
  {
    forall r | r in w.readers ensures CursorOk(t, w.chain[1..], w.readers[r]) {
      CursorAfterDelete(w, t, r);
    }
  }

  lemma CursorAfterDelete(w: World, t: Shared, r: nat)
    requires Oldest(w.s, w.chain) && Counted(w.s, w.readers, w.leaked)
    requires r in w.readers && CursorOk(w.s, w.chain, w.readers[r])
    requires Delete(w.s) == Some(t)
    ensures CursorOk(t, w.chain[1..], w.readers[r])
  {
    var c, tail := w.readers[r], w.chain[0];
    if c.holding && c.list == tail.ptr {
      assert r in Holders(w.readers, tail.ptr);
    }
    hide Holders;
  }

  /**
   * Evicting the oldest frame of a list that has one keeps everything: the frame
   * is freed if nobody has it pinned and set aside otherwise.
   */
  lemma DeleteKeepsInv(w: World)
    requires Inv(w) && w.chain != []
    ensures Delete(w.s).Some? && Inv(AfterDelete(w, Delete(w.s).value))
  {
    assert Stored(w.s.mem, w.chain[0]);
    assert Oldest(w.s, w.chain);
    var t := Delete(w.s).value;
    hide Linked, Kept, Owned, Accounted, Counted, Cursors, Oldest, Delete;
    LinkedAfterDelete(w, t);
    KeptAfterDelete(w, t);
    OwnedAfterDelete(w, t);
    AccountedAfterDelete(w, t);
    CountedAfterDelete(w, t);
    CursorsAfterDelete(w, t);
  }

  /** `pListHead` survives an eviction exactly if a frame is left, or if it was never set. */
  lemma DeleteKeepsHead(w: World)
    requires Inv(w) && HeadKnown(w) && w.chain != [] && Delete(w.s).Some?
    ensures HeadKnown(AfterDelete(w, Delete(w.s).value)) <==> |w.chain| >= 2 || w.s.pListHead == NULL
  {
    hide Linked, Kept, Owned, Accounted, Counted, Cursors;
  }

  /** On an empty list the unsigned counter wraps, and no view of the state is consistent again. */
  lemma DeleteOnEmptyWraps(w: World, v: World)
    requires Inv(w) && w.chain == [] && Delete(w.s) == Some(v.s)
    ensures v.s.itemNum == TWO32 - 1 && !Inv(v)
  {
  }

  // ----- appending -----

  function NewFrame(s: Shared, p: Ptr, len: nat): Frame { Frame(p, s.seqNo, len) }

  function AfterAppend(w: World, u: Shared, p: Ptr, len: nat): World {
    w.(s := u, chain := w.chain + [NewFrame(w.s, p, len)])
  }

  /** The memory after appending: the new node, and the newest one before it pointing there. */
  function Appended(mem: map<Ptr, Node>, chain: seq<Frame>, p: Ptr, node: Node): map<Ptr, Node>
    requires chain != [] ==> chain[|chain| - 1].ptr in mem
  {
    if chain == [] then mem[p := node]
    else var q := chain[|chain| - 1].ptr; mem[p := node][q := mem[q].(next := p)]
  }

  predicate CanAppend(s: Shared, chain: seq<Frame>, p: Ptr) {
    && p != NULL && p !in s.mem && s.itemNum + 1 <= s.maxNum
    && (chain != [] ==> chain[|chain| - 1].ptr in s.mem)
  }

  function AppendedState(s: Shared, chain: seq<Frame>, p: Ptr, len: nat): Shared
    requires CanAppend(s, chain, p)
  {
    s.(mem := Appended(s.mem, chain, p, Node(s.seqNo, len, 0, NULL)),
       seqNo := s.seqNo + 1, headId := s.seqNo, itemNum := s.itemNum + 1, allSize := U32(s.allSize + len),
       list := if chain == [] then p else s.list,
       pListHead := if chain == [] then s.pListHead else p)
  }

  lemma NewestIsStored(s: Shared, chain: seq<Frame>)
    requires Linked(s, chain) && chain != []
    ensures Stored(s.mem, chain[0]) && Stored(s.mem, chain[|chain| - 1]) && s.mem[chain[|chain| - 1].ptr].next == NULL
  {
    assert s.mem[chain[|chain| - 1].ptr].next == Successor(chain, |chain| - 1);
  }

  /** With `pListHead` known, or nothing linked, appending touches allocated nodes only. */
  lemma AppendResult(w: World, p: Ptr, len: nat)
    requires Linked(w.s, w.chain) && p != NULL && p !in w.s.mem && w.s.itemNum + 1 <= w.s.maxNum
    requires HeadKnown(w) || w.chain == []
    ensures CanAppend(w.s, w.chain, p)
    ensures Append(w.s, p, len) == Some((1, AppendedState(w.s, w.chain, p, len)))
  {
    if w.chain != [] {
      NewestIsStored(w.s, w.chain);
    }
    hide U32, Linked;
  }

  lemma LinkedAfterAppend(s: Shared, chain: seq<Frame>, p: Ptr, len: nat)
    requires Linked(s, chain) && CanAppend(s, chain, p)
    ensures Linked(AppendedState(s, chain, p, len), chain + [NewFrame(s, p, len)])
  {
    LinkedApart(s, chain);
    var u, more := AppendedState(s, chain, p, len), chain + [NewFrame(s, p, len)];
    forall i | 0 <= i < |more|
      ensures Stored(u.mem, more[i]) && more[i].id == u.tailId + i && u.mem[more[i].ptr].next == Successor(more, i)
    {
      if i < |chain| {
        assert more[i] == chain[i] && Stored(s.mem, chain[i]);
        assert s.mem[chain[i].ptr].next == Successor(chain, i);
      }
    }
    assert more[0].ptr == u.list;
  }

  lemma KeptAfterAppend(s: Shared, chain: seq<Frame>, evicted: seq<Frame>, p: Ptr, len: nat)
    requires Linked(s, chain) && Kept(s, evicted) && CanAppend(s, chain, p)
    ensures Kept(AppendedState(s, chain, p, len), evicted)
  {
    if chain != [] {
      forall f | f in evicted ensures f.ptr != chain[|chain| - 1].ptr {
        KeptApart(s, chain, evicted, |chain| - 1, f);
      }
    }
    hide Linked;
  }

  lemma OwnedAfterAppend(s: Shared, chain: seq<Frame>, evicted: seq<Frame>, p: Ptr, len: nat)
    requires Owned(s, chain, evicted) && CanAppend(s, chain, p)
    ensures Owned(AppendedState(s, chain, p, len), chain + [NewFrame(s, p, len)], evicted)
  {
    assert Addresses(chain + [NewFrame(s, p, len)]) == Addresses(chain) + {p};
    var u := AppendedState(s, chain, p, len);
    assert u.mem.Keys == s.mem.Keys + {p};
  }

  lemma AccountedAfterAppend(s: Shared, chain: seq<Frame>, evicted: seq<Frame>, p: Ptr, len: nat)
    requires Accounted(s, chain, evicted) && CanAppend(s, chain, p)
    ensures Accounted(AppendedState(s, chain, p, len), chain + [NewFrame(s, p, len)], evicted)
  {
    var frame := NewFrame(s, p, len);
    BytesOfConcat(chain, [frame]);
    assert Bytes([frame]) == len;
    WrapSum(Bytes(chain) + Bytes(evicted), len);
    hide U32, Bytes, Appended;
  }

  /** Nobody holds an address that is not allocated. */
  lemma UnallocatedIsUnheld(s: Shared, chain: seq<Frame>, readers: map<nat, Cursor>, p: Ptr)
    requires Cursors(s, chain, readers) && p !in s.mem
    ensures Holders(readers, p) == {}
  {
    forall r | r in readers ensures !(readers[r].holding && readers[r].list == p) {
      assert CursorOk(s, chain, readers[r]);
    }
  }

  lemma CountedAfterAppend(s: Shared, chain: seq<Frame>, readers: map<nat, Cursor>, leaked: multiset<Ptr>, p: Ptr, len: nat)
    requires Counted(s, readers, leaked) && CanAppend(s, chain, p) && Holders(readers, p) == {}
    ensures Counted(AppendedState(s, chain, p, len), readers, leaked)
  {
    assert p !in leaked;
    hide Holders;
  }

  lemma CursorAfterAppend(s: Shared, chain: seq<Frame>, c: Cursor, p: Ptr, len: nat)
    requires CursorOk(s, chain, c) && CanAppend(s, chain, p)
    ensures CursorOk(AppendedState(s, chain, p, len), chain + [NewFrame(s, p, len)], c)
  {
  }

  /** Appending a frame at a fresh address keeps everything. */
  lemma AppendKeepsInv(w: World, p: Ptr, len: nat)
    requires Inv(w) && p != NULL && p !in w.s.mem && w.s.itemNum + 1 <= w.s.maxNum
    requires HeadKnown(w) || w.chain == []
    ensures CanAppend(w.s, w.chain, p)
    ensures var u := AppendedState(w.s, w.chain, p, len);
            Append(w.s, p, len) == Some((1, u)) && Inv(AfterAppend(w, u, p, len))
  {
    hide Linked, Kept, Owned, Accounted, Counted, Cursors, CursorOk, HeadKnown, Append;
    AppendResult(w, p, len);
    LinkedAfterAppend(w.s, w.chain, p, len);
    KeptAfterAppend(w.s, w.chain, w.evicted, p, len);
    OwnedAfterAppend(w.s, w.chain, w.evicted, p, len);
    AccountedAfterAppend(w.s, w.chain, w.evicted, p, len);
    UnallocatedIsUnheld(w.s, w.chain, w.readers, p);
    CountedAfterAppend(w.s, w.chain, w.readers, w.leaked, p, len);
    CursorsAfterAppend(w.s, w.chain, w.readers, p, len);
  }

  lemma CursorsAfterAppend(s: Shared, chain: seq<Frame>, readers: map<nat, Cursor>, p: Ptr, len: nat)
    requires Cursors(s, chain, readers) && CanAppend(s, chain, p)
    ensures Cursors(AppendedState(s, chain, p, len), chain + [NewFrame(s, p, len)], readers)
  {
    hide CursorOk, AppendedState;
    forall r | r in readers ensures CursorOk(AppendedState(s, chain, p, len), chain + [NewFrame(s, p, len)], readers[r]) {
      CursorAfterAppend(s, chain, readers[r], p, len);
    }
  }

  /** The newest frame stays known, unless a stale `pListHead` was left from a list that had been emptied. */
  lemma AppendKeepsHead(w: World, p: Ptr, len: nat)
    requires CanAppend(w.s, w.chain, p)
    requires HeadKnown(w) || w.chain == []
    ensures HeadKnown(AfterAppend(w, AppendedState(w.s, w.chain, p, len), p, len)) <==> w.chain != [] || w.s.pListHead == NULL || w.s.pListHead == p
  {
  }

  // ----- pinning -----

  /** A reference count changed by `d`. */
  function Touched(s: Shared, p: Ptr, d: int): Shared
    requires p in s.mem
  {
    s.(mem := s.mem[p := s.mem[p].(users := s.mem[p].users + d)])
  }

  lemma LinkedAfterTouch(s: Shared, chain: seq<Frame>, p: Ptr, d: int)
    requires Linked(s, chain) && p in s.mem
    ensures Linked(Touched(s, p, d), chain)
  {
    var t := Touched(s, p, d);
    forall i | 0 <= i < |chain| ensures Stored(t.mem, chain[i]) && t.mem[chain[i].ptr].next == Successor(chain, i) {
      assert Stored(s.mem, chain[i]) && s.mem[chain[i].ptr].next == Successor(chain, i);
    }
  }

  lemma RestAfterTouch(s: Shared, chain: seq<Frame>, evicted: seq<Frame>, p: Ptr, d: int)
    requires Kept(s, evicted) && Owned(s, chain, evicted) && Accounted(s, chain, evicted) && p in s.mem
    requires d > 0 || p !in Addresses(evicted) || s.mem[p].users + d > 0
    ensures var t := Touched(s, p, d); Kept(t, evicted) && Owned(t, chain, evicted) && Accounted(t, chain, evicted)
  {
    var t := Touched(s, p, d);
    assert t.mem.Keys == s.mem.Keys;
    forall f | f in evicted ensures Stored(t.mem, f) && t.mem[f.ptr].users > 0 {
      assert Stored(s.mem, f) && f.ptr in Addresses(evicted);
    }
    hide Bytes, Addresses;
  }

  lemma CursorAfterTouch(s: Shared, chain: seq<Frame>, c: Cursor, p: Ptr, d: int)
    requires CursorOk(s, chain, c) && p in s.mem
    ensures CursorOk(Touched(s, p, d), chain, c)
  {
  }

  /** The memory has room for the whole chain. */
  lemma ChainFitsMemory(s: Shared, chain: seq<Frame>)
    requires Linked(s, chain)
    ensures |chain| <= |s.mem|
  {
    LinkedApart(s, chain);
    forall f | f in chain ensures f.ptr in s.mem { assert Stored(s.mem, f); }
    DistinctAddresses(chain);
    SubsetIsSmaller(Addresses(chain), s.mem.Keys);
  }

  lemma SubsetIsSmaller(a: set<Ptr>, b: set<Ptr>)
    requires a <= b
    ensures |a| <= |b|
  {
    assert b == a + (b - a);
  }

  lemma {:induction false} DistinctAddresses(frames: seq<Frame>)
    requires forall i, j :: 0 <= i < j < |frames| ==> frames[i].ptr != frames[j].ptr
    ensures |Addresses(frames)| == |frames|
  {
    if frames != [] {
      var rest, f := frames[1..], frames[0];
      DistinctAddresses(rest);
      assert frames == [f] + rest;
      assert Addresses(frames) == {f.ptr} + Addresses(rest);
      assert f.ptr !in Addresses(rest);
    }
  }

  /** The walk from any frame reaches every later one. */
  lemma {:induction false} FindReaches(s: Shared, chain: seq<Frame>, i: nat, j: nat, steps: nat)
    requires Linked(s, chain) && i <= j < |chain| && steps >= j - i
    ensures Find(s.mem, chain[i].ptr, chain[j].id, steps) == Found(chain[j].ptr)
    decreases j - i
  {
    assert Stored(s.mem, chain[i]) && s.mem[chain[i].ptr].next == Successor(chain, i);
    if i < j {
      assert Stored(s.mem, chain[i + 1]);
      FindReaches(s, chain, i + 1, j, steps - 1);
    }
  }

  /** Behind the reader's last frame the shortcut finds the very node that the walk would find. */
  lemma LockStartReaches(s: Shared, chain: seq<Frame>, c: Cursor, id: int)
    requires Linked(s, chain) && CursorOk(s, chain, c) && s.tailId <= id < s.tailId + |chain|
    ensures LockStart(s, c, id).Some?
    ensures Find(s.mem, LockStart(s, c, id).value, id, |s.mem|) == Found(chain[id - s.tailId].ptr)
  {
    ChainFitsMemory(s, chain);
    var j := id - s.tailId;
    FindReaches(s, chain, 0, j, |s.mem|);
    FindReaches(s, chain, j, j, |s.mem|);
    if s.tailId <= c.id < s.headId && c.id + 1 == id && c.list != NULL {
      var i := j - 1;
      assert c.list == chain[i].ptr && Stored(s.mem, chain[i]) && s.mem[chain[i].ptr].next == Successor(chain, i);
      assert Stored(s.mem, chain[j]);
    }
    hide Find;
  }

  /** Locking an id in the window pins exactly the frame with that id; any other id changes nothing. */
  lemma LockResult(s: Shared, chain: seq<Frame>, c: Cursor, id: int)
    requires Linked(s, chain) && CursorOk(s, chain, c)
    ensures !(s.tailId <= id < s.tailId + |chain|) ==> Lock(s, c, id) == Some((-102, s, c))
    ensures s.tailId <= id < s.tailId + |chain| ==>
              var f := chain[id - s.tailId];
              f.ptr in s.mem && Lock(s, c, id) == Some((f.len, Touched(s, f.ptr, 1), Cursor(id, f.len, f.ptr, true)))
  {
    if s.tailId <= id < s.tailId + |chain| {
      LockStartReaches(s, chain, c, id);
      assert Stored(s.mem, chain[id - s.tailId]) && Stored(s.mem, chain[0]);
      hide Find, LockStart;
    }
  }

  function AfterLock(w: World, r: nat, t: Shared, c: Cursor): World {
    w.(s := t, readers := w.readers[r := c])
  }

  lemma CountedAfterLock(s: Shared, readers: map<nat, Cursor>, leaked: multiset<Ptr>, r: nat, c: Cursor)
    requires Counted(s, readers, leaked) && c.holding && c.list in s.mem
    requires r in readers ==> !readers[r].holding
    ensures Counted(Touched(s, c.list, 1), readers[r := c], leaked)
  {
    var t := Touched(s, c.list, 1);
    hide Holders;
    forall p | p in t.mem ensures t.mem[p].users == |Holders(readers[r := c], p)| + leaked[p] {
      HoldersAfterLock(readers, r, c, p);
    }
  }

  lemma HoldersAfterLock(readers: map<nat, Cursor>, r: nat, c: Cursor, p: Ptr)
    requires c.holding && (r in readers ==> !readers[r].holding)
    ensures |Holders(readers[r := c], p)| == |Holders(readers, p)| + if p == c.list then 1 else 0
  {
    if p == c.list {
      assert Holders(readers[r := c], p) == Holders(readers, p) + {r} && r !in Holders(readers, p);
    } else {
      assert Holders(readers[r := c], p) == Holders(readers, p);
    }
  }

  /** A successful lock keeps everything, and its reader now holds a frame that nothing frees. */
  lemma LockKeepsInv(w: World, r: nat, id: int)
    requires Inv(w) && r in w.readers && !w.readers[r].holding
    requires w.s.tailId <= id < w.s.tailId + |w.chain|
    ensures var f := w.chain[id - w.s.tailId];
            f.ptr in w.s.mem && Inv(AfterLock(w, r, Touched(w.s, f.ptr, 1), Cursor(id, f.len, f.ptr, true)))
  {
    hide Linked, Kept, Owned, Accounted, Counted, Cursors, CursorOk, Touched, Stored;
    var f := w.chain[id - w.s.tailId];
    var c := Cursor(id, f.len, f.ptr, true);
    PinnedFrame(w.s, w.chain, id);
    LinkedAfterTouch(w.s, w.chain, f.ptr, 1);
    RestAfterTouch(w.s, w.chain, w.evicted, f.ptr, 1);
    CountedAfterLock(w.s, w.readers, w.leaked, r, c);
    CursorsAfterTouch(w.s, w.chain, w.readers, r, c, f.ptr, 1);
  }

  lemma PinnedFrame(s: Shared, chain: seq<Frame>, id: int)
    requires Linked(s, chain) && s.tailId <= id < s.tailId + |chain|
    ensures var f := chain[id - s.tailId]; f.ptr in s.mem && CursorOk(s, chain, Cursor(id, f.len, f.ptr, true))
  {
    assert Stored(s.mem, chain[id - s.tailId]);
  }

  lemma CursorsAfterTouch(s: Shared, chain: seq<Frame>, readers: map<nat, Cursor>, r: nat, c: Cursor, p: Ptr, d: int)
    requires Cursors(s, chain, readers) && CursorOk(s, chain, c) && p in s.mem
    ensures Cursors(Touched(s, p, d), chain, readers[r := c])
  {
    hide CursorOk, Touched;
    CursorAfterTouch(s, chain, c, p, d);
    forall q | q in readers ensures CursorOk(Touched(s, p, d), chain, readers[q]) {
      CursorAfterTouch(s, chain, readers[q], p, d);
    }
  }

  // ----- unpinning -----

  function Released(c: Cursor): Cursor { c.(holding := false) }

  /** An evicted frame given back to the allocator. */
  function Freed(s: Shared, c: Cursor): Shared {
    s.(mem := s.mem - {c.list}, allSize := U32(s.allSize - c.len), notFree := U32(s.notFree - c.len))
  }

  /** The three ways an unlock by a holder can go; on an empty list it has no effect on the count. */
  lemma UnlockResult(s: Shared, chain: seq<Frame>, c: Cursor)
    requires Linked(s, chain) && CursorOk(s, chain, c) && c.holding
    ensures c.list in s.mem
    ensures chain == [] ==> Unlock(s, c) == Some((-102, s, Released(c)))
    ensures chain != [] && c.id >= s.tailId ==> Unlock(s, c) == Some((0, Touched(s, c.list, -1), Released(c)))
    ensures chain != [] && c.id < s.tailId && s.mem[c.list].users > 1 ==>
              Unlock(s, c) == Some((-102, Touched(s, c.list, -1), Released(c)))
    ensures chain != [] && c.id < s.tailId && s.mem[c.list].users <= 1 ==>
              Unlock(s, c) == Some((-102, Freed(s, c), Released(c).(list := NULL)))
  {
    if chain != [] {
      assert Stored(s.mem, chain[0]);
      assert Find(s.mem, c.list, c.id, |s.mem|) == Found(c.list);
    }
    hide Find;
  }

  lemma HoldersAfterUnlock(readers: map<nat, Cursor>, r: nat, c: Cursor, p: Ptr)
    requires r in readers && readers[r].holding && !c.holding
    ensures |Holders(readers[r := c], p)| == |Holders(readers, p)| - if p == readers[r].list then 1 else 0
  {
    if p == readers[r].list {
      assert Holders(readers, p) == Holders(readers[r := c], p) + {r} && r !in Holders(readers[r := c], p);
    } else {
      assert Holders(readers[r := c], p) == Holders(readers, p);
    }
  }

  lemma CountedAfterUnlock(s: Shared, readers: map<nat, Cursor>, leaked: multiset<Ptr>, r: nat, c: Cursor)
    requires Counted(s, readers, leaked) && r in readers && readers[r].holding && readers[r].list in s.mem && !c.holding
    ensures Counted(Touched(s, readers[r].list, -1), readers[r := c], leaked)
    ensures Counted(s, readers[r := c], leaked + multiset{readers[r].list})
    ensures s.mem[readers[r].list].users > 0
  {
    HoldersAfterUnlock(readers, r, c, readers[r].list);
    hide Holders;
    forall p | p in s.mem ensures |Holders(readers[r := c], p)| == |Holders(readers, p)| - if p == readers[r].list then 1 else 0 {
      HoldersAfterUnlock(readers, r, c, p);
    }
  }

  /** The last reader of an evicted frame is its only one, and no pin on it was lost. */
  lemma LastReader(s: Shared, readers: map<nat, Cursor>, leaked: multiset<Ptr>, r: nat)
    requires Counted(s, readers, leaked) && r in readers && readers[r].holding && readers[r].list in s.mem
    requires s.mem[readers[r].list].users <= 1
    ensures forall q :: q in readers && readers[q].holding && readers[q].list == readers[r].list ==> q == r
    ensures readers[r].list !in leaked
  {
    var p := readers[r].list;
    assert r in Holders(readers, p);
    OnlyOne(Holders(readers, p), r);
    forall q | q in readers && readers[q].holding && readers[q].list == p ensures q == r {
      assert q in Holders(readers, p);
    }
  }

  lemma OnlyOne(a: set<nat>, r: nat)
    requires r in a && |a| <= 1
    ensures a == {r}
  {
    assert |a - {r}| == |a| - 1;
  }

  lemma CountedAfterFree(s: Shared, readers: map<nat, Cursor>, leaked: multiset<Ptr>, r: nat, c: Cursor)
    requires Counted(s, readers, leaked) && r in readers && readers[r].holding && readers[r].list in s.mem && !c.holding
    requires s.mem[readers[r].list].users <= 1
    ensures Counted(Freed(s, readers[r]), readers[r := c], leaked)
  {
    LastReader(s, readers, leaked, r);
    hide Holders;
    forall p | p in s.mem ensures |Holders(readers[r := c], p)| == |Holders(readers, p)| - if p == readers[r].list then 1 else 0 {
      HoldersAfterUnlock(readers, r, c, p);
    }
  }

  function IndexOf(frames: seq<Frame>, p: Ptr): (k: nat)
    ensures k <= |frames|
    ensures k < |frames| ==> frames[k].ptr == p
    ensures p in Addresses(frames) ==> k < |frames|
  {
    if frames == [] then 0 else if frames[0].ptr == p then 0
    else
      assert frames == [frames[0]] + frames[1..];
      1 + IndexOf(frames[1..], p)
  }

  /** The frames without the one at address `p`. */
  function Without(frames: seq<Frame>, p: Ptr): seq<Frame> {
    var k := IndexOf(frames, p);
    if k < |frames| then frames[..k] + frames[k + 1..] else frames
  }

  lemma AddressesOfConcat(a: seq<Frame>, b: seq<Frame>)
    ensures Addresses(a + b) == Addresses(a) + Addresses(b)
  {
  }

  lemma BytesWithoutOne(frames: seq<Frame>, p: Ptr)
    requires p in Addresses(frames)
    ensures Bytes(frames) == Bytes(Without(frames, p)) + frames[IndexOf(frames, p)].len
  {
    var k := IndexOf(frames, p);
    var a, b := frames[..k], frames[k + 1..];
    assert frames == a + ([frames[k]] + b);
    assert Bytes([frames[k]]) == frames[k].len;
    hide Bytes, Addresses;
    BytesOfConcat(a, [frames[k]] + b);
    BytesOfConcat([frames[k]], b);
    BytesOfConcat(a, b);
  }

  lemma AddressesWithoutOne(frames: seq<Frame>, p: Ptr)
    requires p in Addresses(frames)
    requires forall i, j :: 0 <= i < j < |frames| ==> frames[i].ptr != frames[j].ptr
    ensures Addresses(Without(frames, p)) == Addresses(frames) - {p}
  {
    var k := IndexOf(frames, p);
    var a, b := frames[..k], frames[k + 1..];
    assert frames == a + ([frames[k]] + b);
    assert Addresses([frames[k]]) == {p} && p !in Addresses(a) && p !in Addresses(b);
    hide Addresses;
    AddressesOfConcat(a, [frames[k]] + b);
    AddressesOfConcat([frames[k]], b);
    AddressesOfConcat(a, b);
  }

  /** What a reader holds behind the window is one of the frames set aside. */
  lemma HeldIsEvicted(s: Shared, chain: seq<Frame>, evicted: seq<Frame>, c: Cursor)
    requires Linked(s, chain) && Kept(s, evicted) && Owned(s, chain, evicted)
    requires Stored(s.mem, Frame(c.list, c.id, c.len)) && c.id < s.tailId
    ensures c.list in Addresses(evicted) && c.list !in Addresses(chain)
    ensures evicted[IndexOf(evicted, c.list)] == Frame(c.list, c.id, c.len)
  {
    forall f | f in chain ensures f.ptr != c.list {
      var i :| 0 <= i < |chain| && chain[i] == f;
      assert Stored(s.mem, chain[i]);
    }
    assert c.list in Addresses(evicted);
    var f := evicted[IndexOf(evicted, c.list)];
    assert Stored(s.mem, f);
  }

  lemma LinkedAfterFree(s: Shared, chain: seq<Frame>, c: Cursor)
    requires Linked(s, chain) && c.list !in Addresses(chain)
    ensures Linked(Freed(s, c), chain)
  {
    var t := Freed(s, c);
    forall i | 0 <= i < |chain| ensures Stored(t.mem, chain[i]) && t.mem[chain[i].ptr].next == Successor(chain, i) {
      assert Stored(s.mem, chain[i]) && s.mem[chain[i].ptr].next == Successor(chain, i);
      assert chain[i].ptr in Addresses(chain);
    }
  }

  lemma KeptAfterFree(s: Shared, evicted: seq<Frame>, c: Cursor)
    requires Kept(s, evicted) && c.list in Addresses(evicted)
    ensures Kept(Freed(s, c), Without(evicted, c.list))
  {
    var k, t := IndexOf(evicted, c.list), Freed(s, c);
    forall f | f in Without(evicted, c.list) ensures Stored(t.mem, f) && f.id < t.tailId && t.mem[f.ptr].users > 0 {
      assert f in evicted[..k] + evicted[k + 1..];
      assert f in evicted && f.ptr != c.list && Stored(s.mem, f);
    }
  }

  lemma OwnedAfterFree(s: Shared, chain: seq<Frame>, evicted: seq<Frame>, c: Cursor)
    requires Kept(s, evicted) && Owned(s, chain, evicted)
    requires c.list in Addresses(evicted) && c.list !in Addresses(chain)
    ensures Owned(Freed(s, c), chain, Without(evicted, c.list))
  {
    AddressesWithoutOne(evicted, c.list);
    hide Without, Addresses, Kept, IndexOf;
  }

  lemma AccountedAfterFree(s: Shared, chain: seq<Frame>, evicted: seq<Frame>, c: Cursor)
    requires Accounted(s, chain, evicted)
    requires c.list in Addresses(evicted) && evicted[IndexOf(evicted, c.list)].len == c.len
    ensures Accounted(Freed(s, c), chain, Without(evicted, c.list))
  {
    hide Bytes, Without, U32, Addresses, IndexOf;
    BytesWithoutOne(evicted, c.list);
    var rest := Bytes(Without(evicted, c.list));
    WrapSum(Bytes(chain) + Bytes(evicted), c.len);
    WrapSum(Bytes(evicted), c.len);
  }

  lemma CursorsAfterFree(s: Shared, chain: seq<Frame>, readers: map<nat, Cursor>, leaked: multiset<Ptr>, r: nat)
    requires Cursors(s, chain, readers) && Counted(s, readers, leaked)
    requires r in readers && readers[r].holding && readers[r].list in s.mem && s.mem[readers[r].list].users <= 1
    ensures Cursors(Freed(s, readers[r]), chain, readers[r := Released(readers[r]).(list := NULL)])
  {
    LastReader(s, readers, leaked, r);
    hide Counted;
    forall q | q in readers && q != r ensures CursorOk(Freed(s, readers[r]), chain, readers[q]) {
      assert CursorOk(s, chain, readers[q]);
    }
  }

  lemma FreeKeepsInv(w: World, r: nat)
    requires Inv(w) && r in w.readers && w.readers[r].holding && w.readers[r].id < w.s.tailId
    requires w.readers[r].list in w.s.mem && w.s.mem[w.readers[r].list].users <= 1
    ensures var c := w.readers[r];
            Inv(w.(s := Freed(w.s, c), readers := w.readers[r := Released(c).(list := NULL)], evicted := Without(w.evicted, c.list)))
  {
    var c := w.readers[r];
    assert CursorOk(w.s, w.chain, c);
    HeldIsEvicted(w.s, w.chain, w.evicted, c);
    hide Linked, Kept, Owned, Accounted, Counted, Cursors, Freed, Without, CursorOk, Addresses, IndexOf;
    LinkedAfterFree(w.s, w.chain, c);
    KeptAfterFree(w.s, w.evicted, c);
    OwnedAfterFree(w.s, w.chain, w.evicted, c);
    AccountedAfterFree(w.s, w.chain, w.evicted, c);
    CountedAfterFree(w.s, w.readers, w.leaked, r, Released(c).(list := NULL));
    CursorsAfterFree(w.s, w.chain, w.readers, w.leaked, r);
  }

  /** Giving a pin back while others remain, or while the frame is linked. */
  lemma ReleaseKeepsInv(w: World, r: nat)
    requires Inv(w) && r in w.readers && w.readers[r].holding && w.readers[r].list in w.s.mem
    requires w.readers[r].id >= w.s.tailId || w.s.mem[w.readers[r].list].users > 1
    ensures var c := w.readers[r]; Inv(w.(s := Touched(w.s, c.list, -1), readers := w.readers[r := Released(c)]))
  {
    hide Linked, Kept, Owned, Accounted, Counted, CursorOk, Touched, Released;
    var c := w.readers[r];
    assert CursorOk(w.s, w.chain, c);
    NotKeptAside(w.s, w.chain, w.evicted, c);
    hide Cursors;
    LinkedAfterTouch(w.s, w.chain, c.list, -1);
    RestAfterTouch(w.s, w.chain, w.evicted, c.list, -1);
    CountedAfterUnlock(w.s, w.readers, w.leaked, r, Released(c));
    CursorsAfterTouch(w.s, w.chain, w.readers, r, Released(c), c.list, -1);
  }

  lemma NotKeptAside(s: Shared, chain: seq<Frame>, evicted: seq<Frame>, c: Cursor)
    requires Kept(s, evicted) && CursorOk(s, chain, c) && c.holding
    ensures CursorOk(s, chain, Released(c)) && !Released(c).holding
    ensures c.id >= s.tailId ==> c.list !in Addresses(evicted)
  {
    forall f | f in evicted && f.ptr == c.list ensures c.id < s.tailId { assert Stored(s.mem, f); }
  }

  /** On an empty list the pin stays: the reader is done, but the count never learns of it. */
  lemma LeakKeepsInv(w: World, r: nat)
    requires Inv(w) && r in w.readers && w.readers[r].holding && w.readers[r].list in w.s.mem
    ensures var c := w.readers[r];
            Inv(w.(readers := w.readers[r := Released(c)], leaked := w.leaked + multiset{c.list}))
  {
    hide Linked, Kept, Owned, Accounted, Counted;
    var c := w.readers[r];
    CountedAfterUnlock(w.s, w.readers, w.leaked, r, Released(c));
    assert CursorOk(w.s, w.chain, c);
    assert CursorOk(w.s, w.chain, Released(c));
    hide CursorOk;
  }
}
