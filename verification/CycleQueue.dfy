/**
 * What the send buffer of a connection is for: a first-in first-out queue of bytes with a
 * count of the frames in it. No ring, no positions and no wrapping indices here.
 */
module CycleQueue {
  import opened MachineInt

  const COUNTER_LIMIT := 1000000
  const MAX_FRAME_BUF_SIZE := 0x80000

  datatype Queue = Queue(bytes: seq<byte>, size: nat, totalWrite: nat, totalRead: nat, items: int)

  function Counted(total: nat): nat { if total + 1 >= COUNTER_LIMIT then 0 else total + 1 }

  function Difference(written: nat, read: nat): int {
    if written >= read then written - read else written + COUNTER_LIMIT - read
  }

  function Min(a: int, b: int): int { if a < b then a else b }

  predicate Valid(q: Queue) {
    && |q.bytes| <= q.size < TWO31
    && q.totalWrite < COUNTER_LIMIT && q.totalRead < COUNTER_LIMIT
    && q.items == Difference(q.totalWrite, q.totalRead)
  }

  /** The bytes of a put that find room. */
  function Taken(q: Queue, data: seq<byte>): nat
    requires Valid(q)
  {
    Min(|data|, q.size - |q.bytes|)
  }

  /** `fifo_put` */
  function Put(q: Queue, data: seq<byte>): Queue
    requires Valid(q)
  {
    if data == [] then q
    else
      var w := Counted(q.totalWrite);
      q.(bytes := q.bytes + data[..Taken(q, data)], totalWrite := w, items := Difference(w, q.totalRead))
  }

  /** `fifo_get` refuses an empty count, and a frame as large as the buffer of its callers. */
  predicate Refuses(q: Queue, len: nat) {
    q.items < 1 || (len > 0 && Min(len, |q.bytes|) >= MAX_FRAME_BUF_SIZE)
  }

  function Get(q: Queue, len: nat): (seq<byte>, Queue)
    requires Valid(q)
  {
    if Refuses(q, len) || len == 0 then ([], q)
    else
      var n := Min(len, |q.bytes|);
      var r := Counted(q.totalRead);
      (q.bytes[..n], q.(bytes := q.bytes[n..], totalRead := r, items := Difference(q.totalWrite, r)))
  }

  /** `fifo_enable_insert_length`: the limit is computed in `int` and compared as `unsigned`. */
  predicate EnableInsertLength(q: Queue, len: nat) {
    U32(|q.bytes| + len) <= U32(q.size - 10240)
  }

  /**
   * When an insert is announced: while it leaves 10 KiB free. In a buffer that does not have them the
   * limit wraps, and nearly every length is allowed.
   */
  lemma AnnouncedExactlyIf(q: Queue, len: nat)
    requires Valid(q) && len < TWO31
    ensures EnableInsertLength(q, len) <==>
              |q.bytes| + len + 10 * 1024 <= q.size + (if q.size < 10 * 1024 then TWO32 else 0)
  {
  }

  // ----- runs -----

  datatype Op = PutOp(data: seq<byte>) | GetOp(len: nat) | ResetOp

  /** A queue, and what went through it since the last reset. */
  datatype Log = Log(q: Queue, accepted: seq<byte>, delivered: seq<byte>, puts: nat, gets: nat)

  function Empty(size: nat): Queue { Queue([], size, 0, 0, 0) }

  function New(size: nat): Log { Log(Empty(size), [], [], 0, 0) }

  function Step(l: Log, op: Op): Log
    requires Valid(l.q)
  {
    match op
    case PutOp(data) =>
      if data == [] then l
      else Log(Put(l.q, data), l.accepted + data[..Taken(l.q, data)], l.delivered, l.puts + 1, l.gets)
    case GetOp(len) =>
      if Refuses(l.q, len) || len == 0 then l
      else Log(Get(l.q, len).1, l.accepted, l.delivered + Get(l.q, len).0, l.puts, l.gets + 1)
    case ResetOp => Log(Empty(l.q.size), [], [], 0, 0)
  }

  /**
   * Nothing is lost, repeated or reordered: what was delivered, followed by what is still
   * buffered, is exactly what was accepted; and the item count is the number of frames put
   * in and not yet taken out, modulo one million.
   */
  ghost predicate Faithful(l: Log) {
    && Valid(l.q)
    && l.delivered + l.q.bytes == l.accepted
    && l.gets <= l.puts
    && l.q.totalWrite == l.puts % COUNTER_LIMIT && l.q.totalRead == l.gets % COUNTER_LIMIT
    && l.q.items == (l.puts - l.gets) % COUNTER_LIMIT
  }

  lemma CountedIsNext(total: nat, n: nat)
    requires total == n % COUNTER_LIMIT
    ensures Counted(total) == (n + 1) % COUNTER_LIMIT
  {
  }

  lemma DifferenceIsModular(w: nat, r: nat)
    requires r <= w
    ensures Difference(w % COUNTER_LIMIT, r % COUNTER_LIMIT) == (w - r) % COUNTER_LIMIT
  {
  }

  lemma StepIsFaithful(l: Log, op: Op)
    requires Faithful(l)
    ensures Faithful(Step(l, op))
    ensures Step(l, op).q.size == l.q.size
  {
    hide Counted, Difference;
    CountedIsNext(l.q.totalWrite, l.puts);
    CountedIsNext(l.q.totalRead, l.gets);
    DifferenceIsModular(l.puts + 1, l.gets);
    if l.gets < l.puts {
      DifferenceIsModular(l.puts, l.gets + 1);
    }
    match op {
      case PutOp(data) =>
        assert l.delivered + (l.q.bytes + data[..Taken(l.q, data)]) == l.accepted + data[..Taken(l.q, data)];
      case GetOp(len) =>
        if !Refuses(l.q, len) && len > 0 {
          var n := Min(len, |l.q.bytes|);
          assert (l.delivered + l.q.bytes[..n]) + l.q.bytes[n..] == l.accepted by { assert l.q.bytes == l.q.bytes[..n] + l.q.bytes[n..]; }
        }
      case ResetOp => DifferenceIsModular(0, 0);
    }
  }

  ghost function Run(l: Log, ops: seq<Op>): Log
    requires Faithful(l)
    decreases |ops|
  {
    if ops == [] then l
    else
      StepIsFaithful(l, ops[0]);
      Run(Step(l, ops[0]), ops[1..])
  }

  /** Every run of puts, gets and resets is faithful. */
  lemma {:induction false} RunIsFaithful(l: Log, ops: seq<Op>)
    requires Faithful(l)
    ensures Faithful(Run(l, ops)) && Run(l, ops).q.size == l.q.size
    decreases |ops|
  {
    hide Step;
    if ops != [] {
      StepIsFaithful(l, ops[0]);
      RunIsFaithful(Step(l, ops[0]), ops[1..]);
    }
  }

  lemma NewIsFaithful(size: nat)
    requires size < TWO31
    ensures Faithful(New(size))
  {
  }

  /** Whatever is done with a new buffer, it stays faithful. */
  lemma EveryRunIsFaithful(size: nat, ops: seq<Op>)
    requires size < TWO31
    ensures Faithful(New(size)) && Faithful(Run(New(size), ops))
  {
    NewIsFaithful(size);
    RunIsFaithful(New(size), ops);
    hide Faithful;
  }

  /** The count of items is the true number of frames inside exactly while that is below one million. */
  lemma ItemsAreExact(l: Log)
    requires Faithful(l)
    ensures l.q.items == l.puts - l.gets <==> l.puts - l.gets < 1000000
  {
  }

  /** What is put into an empty queue, if it is not too large, comes out whole and leaves it empty again. */
  lemma PutThenGet(q: Queue, data: seq<byte>)
    requires Valid(q) && q.bytes == [] && q.items == 0 && 0 < |data| <= q.size && |data| < MAX_FRAME_BUF_SIZE
    ensures Valid(Put(q, data)) && Put(q, data).items == 1
    ensures Get(Put(q, data), |data|).0 == data
    ensures var r := Get(Put(q, data), |data|).1; r.bytes == [] && r.items == 0
  {
    var p := Put(q, data);
    assert [] + data[..|data|] == data && data[..|data|] == data && data[|data|..] == [];
    assert p.bytes == data;
  }

  /** A put keeps all there is room for: everything, or as much of its beginning as fills the buffer. */
  lemma PutFillsUp(l: Log, data: seq<byte>)
    requires Faithful(l)
    ensures var after := Step(l, PutOp(data));
            && l.accepted <= after.accepted && after.accepted[|l.accepted|..] <= data
            && after.accepted[|l.accepted|..] == after.q.bytes[|l.q.bytes|..]
            && (after.accepted == l.accepted + data || |after.q.bytes| == l.q.size)
  {
    var n := Taken(l.q, data);
    assert (l.accepted + data[..n])[|l.accepted|..] == data[..n] == (l.q.bytes + data[..n])[|l.q.bytes|..];
    assert n == |data| ==> data[..n] == data;
  }

  /**
   * A get has an effect exactly if a frame is counted, and it asks for something, and that or everything
   * there is fits below 512 KiB. It then takes what it asks for from the front, or everything.
   */
  lemma GetTakesExactlyIf(l: Log, len: nat)
    requires Faithful(l)
    ensures Step(l, GetOp(len)) != l <==> l.q.items >= 1 && len > 0 && (len < 512 * 1024 || |l.q.bytes| < 512 * 1024)
    ensures Step(l, GetOp(len)) != l ==>
              var got := Step(l, GetOp(len)).delivered[|l.delivered|..];
              got <= l.q.bytes && (|got| == len <= |l.q.bytes| || (got == l.q.bytes && |got| < len))
  {
    if !Refuses(l.q, len) && len > 0 {
      var got := Get(l.q, len).0;
      assert Step(l, GetOp(len)).gets == l.gets + 1;
      assert (l.delivered + got)[|l.delivered|..] == got;
      assert |l.q.bytes| <= len ==> got == l.q.bytes;
    }
  }

  // ----- whole frames -----

  function Flat(frames: seq<seq<byte>>): seq<byte> { if frames == [] then [] else frames[0] + Flat(frames[1..]) }

  lemma {:induction false} FlatOfMore(frames: seq<seq<byte>>, f: seq<byte>)
    ensures Flat(frames + [f]) == Flat(frames) + f
    decreases |frames|
  {
    if frames == [] {
      assert [] + [f] == [f] && [f][1..] == [] && f + [] == f && [] + f == f;
    } else {
      assert (frames + [f])[1..] == frames[1..] + [f];
      FlatOfMore(frames[1..], f);
      assert frames[0] + (Flat(frames[1..]) + f) == (frames[0] + Flat(frames[1..])) + f;
    }
  }

  /** Frames as the buffer's users send them. */
  predicate Sendable(frames: seq<seq<byte>>) { forall i :: 0 <= i < |frames| ==> 0 < |frames[i]| < MAX_FRAME_BUF_SIZE }

  /** The buffer holds exactly these frames. */
  ghost predicate Holding(l: Log, frames: seq<seq<byte>>) {
    Faithful(l) && l.q.bytes == Flat(frames) && l.puts - l.gets == |frames| < COUNTER_LIMIT && Sendable(frames)
  }

  lemma FrameIsStored(l: Log, frames: seq<seq<byte>>, f: seq<byte>)
    requires Holding(l, frames) && 0 < |f| < MAX_FRAME_BUF_SIZE
    requires |Flat(frames)| + |f| <= l.q.size && |frames| + 1 < COUNTER_LIMIT
    ensures Holding(Step(l, PutOp(f)), frames + [f])
  {
    StepIsFaithful(l, PutOp(f));
    FlatOfMore(frames, f);
    hide Faithful, Flat;
    assert f[..|f|] == f;
  }

  lemma OldestComesOut(l: Log, frames: seq<seq<byte>>)
    requires Holding(l, frames) && frames != []
    ensures Valid(l.q) && Get(l.q, |frames[0]|).0 == frames[0]
    ensures Holding(Step(l, GetOp(|frames[0]|)), frames[1..])
  {
    ItemsAreExact(l);
    StepIsFaithful(l, GetOp(|frames[0]|));
    assert l.q.bytes == frames[0] + Flat(frames[1..]);
    assert l.q.bytes[..|frames[0]|] == frames[0] && l.q.bytes[|frames[0]|..] == Flat(frames[1..]);
  }

  function Sent(frames: seq<seq<byte>>): seq<Op> { seq(|frames|, i requires 0 <= i < |frames| => PutOp(frames[i])) }

  function Lengths(frames: seq<seq<byte>>): seq<nat> { seq(|frames|, i requires 0 <= i < |frames| => |frames[i]|) }

  /** What a row of gets of these lengths delivers. */
  ghost function Received(l: Log, lens: seq<nat>): seq<seq<byte>>
    requires Faithful(l)
    decreases |lens|
  {
    if lens == [] then []
    else
      StepIsFaithful(l, GetOp(lens[0]));
      [Get(l.q, lens[0]).0] + Received(Step(l, GetOp(lens[0])), lens[1..])
  }

  lemma {:induction false} AllAreStored(l: Log, held: seq<seq<byte>>, frames: seq<seq<byte>>)
    requires Holding(l, held) && Sendable(frames)
    requires |Flat(held)| + |Flat(frames)| <= l.q.size && |held| + |frames| < COUNTER_LIMIT
    ensures Holding(Run(l, Sent(frames)), held + frames)
    decreases |frames|
  {
    if frames == [] {
      assert held + frames == held;
    } else {
      hide Step, Faithful, Flat;
      FrameIsStored(l, held, frames[0]) by { FlatOfCons(frames); }
      StepIsFaithful(l, PutOp(frames[0]));
      FlatOfCons(frames);
      FlatOfMore(held, frames[0]);
      assert Sent(frames)[1..] == Sent(frames[1..]) && (held + [frames[0]]) + frames[1..] == held + frames;
      AllAreStored(Step(l, PutOp(frames[0])), held + [frames[0]], frames[1..]);
    }
  }

  lemma FlatOfCons(frames: seq<seq<byte>>)
    requires frames != []
    ensures Flat(frames) == frames[0] + Flat(frames[1..])
  {
  }

  lemma {:induction false} AllComeOut(l: Log, frames: seq<seq<byte>>)
    requires Holding(l, frames)
    ensures Received(l, Lengths(frames)) == frames
    decreases |frames|
  {
    if frames != [] {
      OldestComesOut(l, frames);
      assert Lengths(frames)[1..] == Lengths(frames[1..]);
      AllComeOut(Step(l, GetOp(|frames[0]|)), frames[1..]);
      hide Step, Holding, Get;
    }
  }

  /** Frames that fit beside each other come out one by one, each whole, in the order they were put in. */
  lemma FramesComeBack(size: nat, frames: seq<seq<byte>>)
    requires |Flat(frames)| <= size < TWO31 && |frames| < COUNTER_LIMIT && Sendable(frames)
    ensures Faithful(New(size)) && Faithful(Run(New(size), Sent(frames)))
    ensures Received(Run(New(size), Sent(frames)), Lengths(frames)) == frames
  {
    NewIsFaithful(size);
    assert Holding(New(size), []);
    AllAreStored(New(size), [], frames);
    assert [] + frames == frames;
    AllComeOut(Run(New(size), Sent(frames)), frames);
  }

  /** No get has any effect exactly if the number of frames inside is a multiple of one million. */
  lemma BlockedExactlyIf(l: Log)
    requires Faithful(l)
    ensures (forall len: nat :: Step(l, GetOp(len)) == l) <==> (l.puts - l.gets) % 1000000 == 0
  {
    if l.q.items > 0 {
      assert Step(l, GetOp(1)).gets == l.gets + 1;
    }
  }

  /**
   * Whatever has gone through the buffer, a put that was announced is stored whole, exactly if the buffer
   * has the 10 KiB that are kept free.
   */
  lemma AnnouncedPutsFitExactlyIf(size: nat)
    requires size < TWO31
    ensures (forall l: Log, data: seq<byte> ::
               Faithful(l) && l.q.size == size && |data| < TWO31 && EnableInsertLength(l.q, |data|) ==> Taken(l.q, data) == |data|)
       <==> size >= 10240
  {
    if size >= 10240 {
      forall l: Log, data: seq<byte> | Faithful(l) && l.q.size == size && |data| < TWO31 && EnableInsertLength(l.q, |data|)
        ensures Taken(l.q, data) == |data|
      {
      }
    } else {
      var l := AnnouncedPutIsLost(size);
    }
  }

  /** The input: one put that fills a smaller buffer, and another that is announced, and finds no room. */
  lemma AnnouncedPutIsLost(size: nat) returns (l: Log)
    requires size < 10240
    ensures Faithful(New(size)) && l == Step(New(size), PutOp(seq(size, _ => 0))) && Faithful(l) && l.q.size == size
    ensures EnableInsertLength(l.q, |[1 as byte]|) && Taken(l.q, [1 as byte]) == 0
  {
    NewIsFaithful(size);
    var data: seq<byte> := seq(size, _ => 0);
    l := Step(New(size), PutOp(data));
    StepIsFaithful(New(size), PutOp(data));
    assert l.q.bytes == data;
  }
}
