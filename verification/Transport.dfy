/** The write side of a server: reference-counted buffers from a pool, shared by the write queues
    of many peers (obus_io.c, obus_buffer.h, the send functions of obus_server.c). */
module Transport {
  import opened Values
  import opened Lists

  datatype Buffer = Buffer(data: seq<byte>, refcnt: int)

  /** One peer's output. queue: buffers waiting, oldest first; written: bytes of the first one
      already sent; wire: everything put on the socket; submitted: everything handed to the
      queue, in order. */
  datatype Io = Io(open: bool, queue: seq<nat>, written: nat, wire: seq<byte>, submitted: seq<byte>)

  /** What a server does with its pool. */
  datatype Work =
    | Accept
    | Broadcast(data: seq<byte>, chosen: seq<bool>, rooms: seq<nat>)
    | Writable(i: nat, room: nat)
    | Close(i: nat)

  const NEW_IO := Io(true, [], 0, [], [])

  // ---- counting ----

  function Count(q: seq<nat>, b: nat): nat {
    if q == [] then 0 else (if q[0] == b then 1 else 0) + Count(q[1..], b)
  }

  /** How many queue positions hold buffer b. */
  function Holders(ios: seq<Io>, b: nat): nat {
    if ios == [] then 0 else Count(ios[0].queue, b) + Holders(ios[1..], b)
  }

  lemma {:induction false} CountAppend(q: seq<nat>, x: nat, b: nat)
    ensures Count(q + [x], b) == Count(q, b) + if x == b then 1 else 0
  {
    if q == [] {
      assert q + [x] == [x];
    } else {
      assert (q + [x])[1..] == q[1..] + [x];
      CountAppend(q[1..], x, b);
    }
  }

  lemma {:induction false} CountIn(q: seq<nat>, b: nat)
    ensures Count(q, b) > 0 <==> b in q
  {
    if q != [] {
      CountIn(q[1..], b);
    }
  }

  lemma {:induction false} HoldersUpdate(ios: seq<Io>, i: nat, io: Io, b: nat)
    requires i < |ios|
    ensures Holders(ios[i := io], b) == Holders(ios, b) - Count(ios[i].queue, b) + Count(io.queue, b)
    decreases |ios|
  {
    if i == 0 {
      assert ios[i := io][1..] == ios[1..];
    } else {
      assert ios[i := io][1..] == ios[1..][i - 1 := io];
      HoldersUpdate(ios[1..], i - 1, io, b);
    }
  }

  lemma {:induction false} HoldersAppend(ios: seq<Io>, io: Io, b: nat)
    ensures Holders(ios + [io], b) == Holders(ios, b) + Count(io.queue, b)
  {
    if ios == [] {
      assert ios + [io] == [io];
    } else {
      assert (ios + [io])[1..] == ios[1..] + [io];
      HoldersAppend(ios[1..], io, b);
    }
  }

  lemma {:induction false} HoldersIn(ios: seq<Io>, i: nat, b: nat)
    requires i < |ios| && b in ios[i].queue
    ensures Holders(ios, b) > 0
    decreases |ios|
  {
    if i == 0 {
      CountIn(ios[0].queue, b);
    } else {
      HoldersIn(ios[1..], i - 1, b);
    }
  }

  // ---- what a queue still has to send ----

  ghost predicate InRange(q: seq<nat>, n: nat) { forall k :: 0 <= k < |q| ==> q[k] < n }

  function Concat(mem: seq<Buffer>, q: seq<nat>): seq<byte>
    requires InRange(q, |mem|)
  {
    if q == [] then [] else mem[q[0]].data + Concat(mem, q[1..])
  }

  function Unsent(mem: seq<Buffer>, io: Io): seq<byte>
    requires InRange(io.queue, |mem|) && (io.queue != [] ==> io.written <= |mem[io.queue[0]].data|)
  {
    if io.queue == [] then [] else mem[io.queue[0]].data[io.written..] + Concat(mem, io.queue[1..])
  }

  /** Write-queue refinement: the bytes sent, then the unsent tail of the head buffer, then the
      other queued buffers, are the buffers submitted. */
  ghost predicate IoOk(mem: seq<Buffer>, io: Io) {
    InRange(io.queue, |mem|) && (io.queue == [] ==> io.written == 0) &&
    (io.queue != [] ==> io.written <= |mem[io.queue[0]].data|) &&
    (io.open ==> io.wire + Unsent(mem, io) == io.submitted) &&
    (!io.open ==> io.queue == [])
  }

  lemma {:induction false} ConcatAppend(mem: seq<Buffer>, q: seq<nat>, b: nat)
    requires InRange(q, |mem|) && b < |mem|
    ensures InRange(q + [b], |mem|) && Concat(mem, q + [b]) == Concat(mem, q) + mem[b].data
  {
    if q == [] {
      assert q + [b] == [b];
      assert Concat(mem, [b]) == mem[b].data + Concat(mem, [b][1..]);
    } else {
      assert (q + [b])[1..] == q[1..] + [b];
      ConcatAppend(mem, q[1..], b);
    }
  }

  lemma {:induction false} ConcatSame(mem: seq<Buffer>, mem': seq<Buffer>, q: seq<nat>)
    requires InRange(q, |mem|) && |mem| <= |mem'|
    requires forall k :: 0 <= k < |q| ==> mem'[q[k]].data == mem[q[k]].data
    ensures Concat(mem', q) == Concat(mem, q)
  {
    if q != [] {
      ConcatSame(mem, mem', q[1..]);
    }
  }

  /** Buffers not in the queue may change freely. */
  lemma IoSame(mem: seq<Buffer>, mem': seq<Buffer>, io: Io)
    requires IoOk(mem, io) && |mem| <= |mem'|
    requires forall k :: 0 <= k < |io.queue| ==> mem'[io.queue[k]].data == mem[io.queue[k]].data
    ensures IoOk(mem', io)
  {
    if io.queue != [] {
      var q := io.queue;
      assert mem'[q[0]].data == mem[q[0]].data;
      assert forall k :: 0 <= k < |q[1..]| ==> mem'[q[1..][k]].data == mem[q[1..][k]].data;
      ConcatSame(mem, mem', q[1..]);
    }
  }

  /** Handing b to a queue, the first n bytes of it (n > 0 only for an idle queue) being sent. */
  function Enqueued(mem: seq<Buffer>, io: Io, b: nat, n: nat): Io
    requires b < |mem| && n <= |mem[b].data|
  {
    io.(queue := io.queue + [b],
        written := if io.queue == [] then n else io.written,
        wire := if io.queue == [] then io.wire + mem[b].data[..n] else io.wire,
        submitted := io.submitted + mem[b].data)
  }

  lemma Regroup(a: seq<byte>, b: seq<byte>, c: seq<byte>, d: seq<byte>)
    ensures a + (b + (c + d)) == (a + (b + c)) + d == a + ((b + c) + d) == (a + b) + (c + d)
  {
  }

  lemma EnqueuedIdle(mem: seq<Buffer>, io: Io, b: nat, n: nat)
    requires IoOk(mem, io) && io.open && io.queue == [] && b < |mem| && n <= |mem[b].data|
    ensures IoOk(mem, Enqueued(mem, io, b, n))
  {
    var io', d := Enqueued(mem, io, b, n), mem[b].data;
    assert io'.queue == [b] && Concat(mem, [b][1..]) == [];
    assert Unsent(mem, io') == d[n..];
    Regroup(io.wire, d[..n], d[n..], []);
    assert d[n..] + [] == d[n..] && d[..n] + d[n..] == d;
  }

  lemma EnqueuedBehind(mem: seq<Buffer>, io: Io, b: nat, n: nat)
    requires IoOk(mem, io) && io.open && io.queue != [] && b < |mem| && n <= |mem[b].data|
    ensures IoOk(mem, Enqueued(mem, io, b, n))
  {
    var io' := Enqueued(mem, io, b, n);
    var rest := io.queue[1..];
    assert io'.queue[1..] == rest + [b];
    ConcatAppend(mem, rest, b);
    Regroup(io.wire, mem[io.queue[0]].data[io.written..], Concat(mem, rest), mem[b].data);
  }

  lemma EnqueuedOk(mem: seq<Buffer>, io: Io, b: nat, n: nat)
    requires IoOk(mem, io) && io.open && b < |mem| && n <= |mem[b].data|
    ensures IoOk(mem, Enqueued(mem, io, b, n))
  {
    if io.queue == [] {
      EnqueuedIdle(mem, io, b, n);
    } else {
      EnqueuedBehind(mem, io, b, n);
    }
  }

  /** Everything written at once. */
  function SentNow(io: Io, d: seq<byte>): Io { io.(wire := io.wire + d, submitted := io.submitted + d) }

  lemma SentNowOk(mem: seq<Buffer>, io: Io, d: seq<byte>)
    requires IoOk(mem, io) && io.open && io.queue == []
    ensures IoOk(mem, SentNow(io, d))
  {
  }

  /** n more bytes of the head buffer were sent. */
  function Progressed(mem: seq<Buffer>, io: Io, n: nat): Io
    requires io.queue != [] && io.queue[0] < |mem| && io.written + n <= |mem[io.queue[0]].data|
  {
    io.(wire := io.wire + mem[io.queue[0]].data[io.written..io.written + n], written := io.written + n)
  }

  lemma SplitTail(wire: seq<byte>, d: seq<byte>, w: nat, n: nat, rest: seq<byte>)
    requires w + n <= |d|
    ensures wire + (d[w..] + rest) == (wire + d[w..w + n]) + (d[w + n..] + rest)
  {
    assert d[w..] == d[w..w + n] + d[w + n..];
    Regroup(wire, d[w..w + n], d[w + n..], rest);
  }

  /** Bytes move from unsent to wire; their concatenation stays. */
  lemma ProgressMovesBytes(mem: seq<Buffer>, io: Io, n: nat)
    requires InRange(io.queue, |mem|) && io.queue != [] && io.written + n <= |mem[io.queue[0]].data|
    ensures Progressed(mem, io, n).wire + Unsent(mem, Progressed(mem, io, n)) == io.wire + Unsent(mem, io)
  {
    hide Concat;
    SplitTail(io.wire, mem[io.queue[0]].data, io.written, n, Concat(mem, io.queue[1..]));
  }

  lemma ProgressedOk(mem: seq<Buffer>, io: Io, n: nat)
    requires IoOk(mem, io) && io.open && io.queue != [] && io.written + n <= |mem[io.queue[0]].data|
    ensures IoOk(mem, Progressed(mem, io, n))
  {
    hide Unsent, Concat;
    ProgressMovesBytes(mem, io, n);
  }

  /** The head buffer is done and leaves the queue. */
  function Completed(io: Io): Io
    requires io.queue != []
  {
    io.(queue := io.queue[1..], written := 0)
  }

  lemma CompletedOk(mem: seq<Buffer>, io: Io)
    requires IoOk(mem, io) && io.open && io.queue != [] && io.written == |mem[io.queue[0]].data|
    ensures IoOk(mem, Completed(io))
  {
    var q := io.queue;
    assert mem[q[0]].data[io.written..] == [];
    if q[1..] != [] {
      assert mem[q[1..][0]].data[0..] == mem[q[1..][0]].data;
    }
  }

  // ---- the pool and the queues ----

  /** The references to buffer b: two for each queue entry and the others; none if it is free. */
  ghost predicate Accounted(refcnt: int, free: seq<nat>, ios: seq<Io>, others: nat, b: nat) {
    refcnt == 2 * Holders(ios, b) + others && (b in free <==> refcnt == 0)
  }

  lemma AccountedAfterSending(refcnt: int, free: seq<nat>, ios: seq<Io>, i: nat, others: nat, c: nat, free': seq<nat>)
    requires i < |ios| && ios[i].queue != [] && Accounted(refcnt, free, ios, others, c)
    requires free' == free || free' == free + [ios[i].queue[0]]
    requires ios[i].queue[0] == c ==> free' == if refcnt == 2 then free + [c] else free
    ensures Accounted(refcnt - if ios[i].queue[0] == c then 2 else 0, free', ios[i := Completed(ios[i])], others, c)
  {
    CompletedHolders(ios, i, c);
  }

  /** Only reference counts differ. */
  ghost predicate SameData(mem: seq<Buffer>, mem': seq<Buffer>) {
    |mem'| == |mem| && forall c :: 0 <= c < |mem| ==> mem'[c].data == mem[c].data
  }

  ghost predicate AllAccounted(mem: seq<Buffer>, free: seq<nat>, ios: seq<Io>, owned: seq<nat>, leaked: seq<nat>) {
    |owned| == |mem| && |leaked| == |mem| &&
    forall c :: 0 <= c < |mem| ==> Accounted(mem[c].refcnt, free, ios, owned[c] + leaked[c], c)
  }

  /** The accounts of all buffers when the head of queue i has been sent. */
  lemma AllAccountedAfterSending(mem: seq<Buffer>, free: seq<nat>, ios: seq<Io>, i: nat, owned: seq<nat>, leaked: seq<nat>,
                                 mem': seq<Buffer>, free': seq<nat>)
    requires i < |ios| && ios[i].queue != [] && ios[i].queue[0] < |mem|
    requires AllAccounted(mem, free, ios, owned, leaked)
    requires var b := ios[i].queue[0];
             mem[b].refcnt >= 2 && mem' == mem[b := mem[b].(refcnt := mem[b].refcnt - 2)] &&
             free' == if mem'[b].refcnt == 0 then free + [b] else free
    ensures AllAccounted(mem', free', ios[i := Completed(ios[i])], owned, leaked)
  {
    hide Accounted;
    forall c | 0 <= c < |mem|
      ensures Accounted(mem'[c].refcnt, free', ios[i := Completed(ios[i])], owned[c] + leaked[c], c)
    {
      AccountedAfterSending(mem[c].refcnt, free, ios, i, owned[c] + leaked[c], c, free');
    }
  }

  /** The accounts of all buffers when b joins queue i: one of the owner's references passes to
      the queue, which adds another. */
  lemma AllAccountedAfterQueueing(mem: seq<Buffer>, free: seq<nat>, ios: seq<Io>, i: nat, io: Io, b: nat,
                                  owned: seq<nat>, leaked: seq<nat>, mem': seq<Buffer>, owned': seq<nat>)
    requires AllAccounted(mem, free, ios, owned, leaked) && i < |ios| && io.queue == ios[i].queue + [b]
    requires b < |mem| && owned[b] > 0 && owned' == owned[b := owned[b] - 1]
    requires mem' == mem[b := mem[b].(refcnt := mem[b].refcnt + 1)]
    ensures AllAccounted(mem', free, ios[i := io], owned', leaked)
  {
    hide Holders;
    forall c | 0 <= c < |mem|
      ensures Accounted(mem'[c].refcnt, free, ios[i := io], owned'[c] + leaked[c], c)
    {
      assert Accounted(mem[c].refcnt, free, ios, owned[c] + leaked[c], c);
      HoldersUpdate(ios, i, io, c);
      CountAppend(ios[i].queue, b, c);
    }
  }

  /** The accounts of all buffers when queue i is torn down: one of the two references of each entry
      is given back, the other counts as lost. */
  lemma AllAccountedAfterTeardown(mem: seq<Buffer>, free: seq<nat>, ios: seq<Io>, i: nat, io: Io, owned: seq<nat>, leaked: seq<nat>,
                                  mem': seq<Buffer>, leaked': seq<nat>)
    requires AllAccounted(mem, free, ios, owned, leaked) && i < |ios| && io.queue == [] && InRange(ios[i].queue, |mem|)
    requires |mem'| == |mem| && |leaked'| == |mem|
    requires forall c :: 0 <= c < |mem| ==>
               mem'[c].refcnt == mem[c].refcnt - Count(ios[i].queue, c) && leaked'[c] == leaked[c] + Count(ios[i].queue, c)
    ensures AllAccounted(mem', free, ios[i := io], owned, leaked')
  {
    hide Holders;
    forall c | 0 <= c < |mem|
      ensures Accounted(mem'[c].refcnt, free, ios[i := io], owned[c] + leaked'[c], c)
    {
      assert Accounted(mem[c].refcnt, free, ios, owned[c] + leaked[c], c);
      HoldersUpdate(ios, i, io, c);
    }
  }

  lemma IosAfterTeardown(mem: seq<Buffer>, mem': seq<Buffer>, ios: seq<Io>, i: nat)
    requires SameData(mem, mem') && i < |ios| && forall j :: 0 <= j < |ios| ==> IoOk(mem, ios[j])
    ensures var ios' := ios[i := ios[i].(open := false, queue := [], written := 0)];
            forall j :: 0 <= j < |ios'| ==> IoOk(mem', ios'[j])
  {
    hide Unsent;
    forall j | 0 <= j < |ios| && j != i
      ensures IoOk(mem', ios[j])
    {
      IoSame(mem, mem', ios[j]);
    }
  }

  lemma LossIsCounted(q: seq<nat>, leaked: seq<nat>, leaked': seq<nat>)
    requires |leaked'| == |leaked| && InRange(q, |leaked|)
    requires forall c :: 0 <= c < |leaked| ==> leaked'[c] == leaked[c] + Count(q, c)
    ensures leaked' == leaked <==> q == []
  {
    if q != [] {
      CountIn(q, q[0]);
    }
  }

  /** What is on the wire is the beginning of what was submitted: all of it once nothing waits. */
  lemma WireIsPrefix(mem: seq<Buffer>, io: Io)
    requires IoOk(mem, io) && io.open
    ensures io.wire <= io.submitted && (io.queue == [] ==> io.wire == io.submitted)
  {
    hide Concat;
  }

  class Pool {
    var mem: seq<Buffer>
    var free: seq<nat>
    var ios: seq<Io>
    /** References other than those of the queues: the sender's own, a decoder's. */
    ghost var owned: seq<nat>
    /** References nobody will ever give back. */
    ghost var leaked: seq<nat>

    ghost predicate RefsOk(b: nat)
      reads this
      requires b < |mem| && |owned| == |mem| && |leaked| == |mem|
    {
      Accounted(mem[b].refcnt, free, ios, owned[b] + leaked[b], b)
    }

    ghost predicate Valid()
      reads this
    {
      |owned| == |mem| && |leaked| == |mem| && NoDup(free) && InRange(free, |mem|) &&
      (forall b :: 0 <= b < |mem| ==> RefsOk(b)) &&
      (forall i :: 0 <= i < |ios| ==> IoOk(mem, ios[i]))
    }

    constructor ()
      ensures Valid() && mem == [] && ios == []
    {
      mem, free, ios := [], [], [];
      owned, leaked := [], [];
    }

    /** Shared-buffer safety: a buffer in any queue is not in the free pool. */
    lemma QueuedIsNotFree(i: nat, b: nat)
      requires Valid() && i < |ios| && b in ios[i].queue
      ensures b !in free && mem[b].refcnt >= 2
    {
      assert IoOk(mem, ios[i]);
      var k :| 0 <= k < |ios[i].queue| && ios[i].queue[k] == b;
      HoldersIn(ios, i, b);
      assert RefsOk(b);
    }

    method Connect()
      requires Valid()
      modifies this
      ensures Valid() && ios == old(ios) + [NEW_IO]
      ensures mem == old(mem) && free == old(free) && owned == old(owned) && leaked == old(leaked)
    {
      forall b | 0 <= b < |mem|
        ensures Holders(ios + [NEW_IO], b) == Holders(ios, b)
      {
        HoldersAppend(ios, NEW_IO, b);
      }
      ghost var old_ios := ios;
      assert forall b :: 0 <= b < |mem| ==> RefsOk(b);
      ios := ios + [NEW_IO];
      forall b | 0 <= b < |mem|
        ensures RefsOk(b)
      {
        assert old(RefsOk(b));
      }
    }

    /** obus_buffer_pool_peek: a buffer nobody else refers to. */
    method Peek() returns (b: nat)
      requires Valid()
      modifies this
      ensures Valid() && b < |mem| && owned[b] == 1 && mem[b].refcnt == 1
      ensures forall i :: 0 <= i < |ios| ==> b !in ios[i].queue
      ensures b in old(free) || b == |old(mem)|
      ensures ios == old(ios) && |mem| == |leaked| >= |old(mem)| && leaked[..|old(mem)|] == old(leaked)
      ensures forall c :: 0 <= c < |old(mem)| && c != b ==> mem[c] == old(mem)[c] && owned[c] == old(owned)[c]
      ensures forall c :: c in free ==> c in old(free) && c != b
    {
      hide Holders;
      if free == [] {
        b := |mem|;
        mem := mem + [Buffer([], 1)];
        owned, leaked := owned + [1], leaked + [0];
        NewIsUnheld(b);
      } else {
        b := free[0];
        assert RefsOk(b);
        mem := mem[b := mem[b].(refcnt := 1)];
        free := free[1..];
        owned := owned[b := 1];
      }
      assert Holders(ios, b) == 0;
      forall i | 0 <= i < |ios|
        ensures IoOk(mem, ios[i]) && b !in ios[i].queue
      {
        assert IoOk(old(mem), ios[i]);
        Unheld(ios, i, b);
        IoSame(old(mem), mem, ios[i]);
      }
      forall c | 0 <= c < |mem|
        ensures RefsOk(c)
      {
        assert c < |old(mem)| ==> old(RefsOk(c));
      }
    }

    lemma NewIsUnheld(b: nat)
      requires forall i :: 0 <= i < |ios| ==> InRange(ios[i].queue, b)
      ensures Holders(ios, b) == 0
    {
      UnheldByAll(ios, b);
    }

    /** The encoders fill the buffer just taken; every queued byte stays what it was. */
    method Fill(b: nat, data: seq<byte>)
      requires Valid() && b < |mem| && owned[b] > 0
      requires forall i :: 0 <= i < |ios| ==> b !in ios[i].queue
      modifies this
      ensures Valid() && mem == old(mem)[b := Buffer(data, old(mem)[b].refcnt)]
      ensures ios == old(ios) && owned == old(owned) && leaked == old(leaked) && free == old(free)
    {
      mem := mem[b := mem[b].(data := data)];
      forall i | 0 <= i < |ios|
        ensures IoOk(mem, ios[i])
      {
        IoSame(old(mem), mem, ios[i]);
      }
      forall c | 0 <= c < |mem|
        ensures RefsOk(c)
      {
        assert old(RefsOk(c));
      }
    }

    method Ref(b: nat)
      requires Valid() && b < |mem| && mem[b].refcnt > 0
      modifies this
      ensures Valid() && mem == old(mem)[b := old(mem)[b].(refcnt := old(mem)[b].refcnt + 1)]
      ensures owned == old(owned)[b := old(owned)[b] + 1]
      ensures ios == old(ios) && free == old(free) && leaked == old(leaked)
    {
      mem := mem[b := mem[b].(refcnt := mem[b].refcnt + 1)];
      owned := owned[b := owned[b] + 1];
      RefsAndIosKept(old(mem), mem, b);
      hide Holders, IoOk;
      forall c | 0 <= c < |mem|
        ensures RefsOk(c)
      {
        assert old(RefsOk(c));
      }
    }

    /** obus_buffer_unref by an owner; at zero the buffer returns to the pool. */
    method Unref(b: nat)
      requires Valid() && b < |mem| && owned[b] > 0
      modifies this
      ensures Valid() && mem == old(mem)[b := old(mem)[b].(refcnt := old(mem)[b].refcnt - 1)]
      ensures owned == old(owned)[b := old(owned)[b] - 1]
      ensures ios == old(ios) && leaked == old(leaked)
      ensures free == if mem[b].refcnt == 0 then old(free) + [b] else old(free)
    {
      assert RefsOk(b);
      mem := mem[b := mem[b].(refcnt := mem[b].refcnt - 1)];
      owned := owned[b := owned[b] - 1];
      if mem[b].refcnt == 0 {
        free := free + [b];
      }
      RefsAndIosKept(old(mem), mem, b);
      forall c | 0 <= c < |mem|
        ensures RefsOk(c)
      {
        assert old(RefsOk(c));
      }
    }

    lemma RefsAndIosKept(mem0: seq<Buffer>, mem1: seq<Buffer>, b: nat)
      requires b < |mem0| == |mem1| && mem1 == mem0[b := mem0[b].(refcnt := mem1[b].refcnt)]
      requires forall i :: 0 <= i < |ios| ==> IoOk(mem0, ios[i])
      ensures forall i :: 0 <= i < |ios| ==> IoOk(mem1, ios[i])
    {
      forall i | 0 <= i < |ios|
        ensures IoOk(mem1, ios[i])
      {
        IoSame(mem0, mem1, ios[i]);
      }
    }

    /** obus_io_write_buffer: write() in a loop, any number of partial writes, until all is sent or
        the socket, which takes room bytes in all, says EAGAIN. */
    static method WriteBytes(data: seq<byte>, offset: nat, room: nat) returns (n: nat, again: bool)
      requires offset <= |data|
      ensures n == Min(|data| - offset, room) && again == (room < |data| - offset)
    {
      n, again := 0, false;
      while n < |data| - offset
        invariant offset + n <= |data| && n <= room && !again
      {
        if n == room {
          again := true;
          return;
        }
        var k :| 0 < k <= |data| - offset - n && k <= room - n;
        n := n + k;
      }
    }

    /** obus_io_write: behind what is queued, or at once as far as the socket takes it. When it
        has to wait, the queue takes over one of the caller's references and adds its own. */
    method Write(i: nat, b: nat, room: nat) returns (again: bool)
      requires Valid() && i < |ios| && ios[i].open && b < |mem| && owned[b] > 0
      modifies this
      ensures Valid() && |ios| == |old(ios)| && free == old(free) && leaked == old(leaked)
      ensures forall j :: 0 <= j < |ios| && j != i ==> ios[j] == old(ios)[j]
      ensures ios[i].open && ios[i].submitted == old(ios)[i].submitted + mem[b].data
      ensures again == (ios[i].queue != [])
      ensures |ios[i].wire| == if old(ios)[i].queue == [] then Min(|old(ios)[i].wire| + room, |ios[i].submitted|) else |old(ios)[i].wire|
      ensures !again ==> mem == old(mem) && owned == old(owned)
      ensures again ==> mem == old(mem)[b := old(mem)[b].(refcnt := old(mem)[b].refcnt + 1)]
                        && owned == old(owned)[b := old(owned)[b] - 1] && mem[b].refcnt > 0
    {
      hide IoOk, RefsOk, Accounted, Holders, Unsent, Concat;
      OwnedIsHeld(b);
      WireIsPrefix(mem, ios[i]);
      var n := 0;
      again := true;
      if ios[i].queue == [] {
        n, again := WriteBytes(mem[b].data, 0, room);
      }
      if again {
        EnqueuedOk(mem, ios[i], b, n);
        Enqueue(i, b, n);
      } else {
        SentNowOk(mem, ios[i], mem[b].data);
        Replace(i, SentNow(ios[i], mem[b].data));
      }
    }

    lemma OwnedIsHeld(b: nat)
      requires Valid() && b < |mem| && owned[b] > 0
      ensures mem[b].refcnt > 0
    {
      assert RefsOk(b);
    }

    /** Only bytes move: the queue holds the same buffers. */
    method Replace(i: nat, io: Io)
      requires Valid() && i < |ios| && io.queue == ios[i].queue && IoOk(mem, io)
      modifies this`ios
      ensures Valid() && ios == old(ios)[i := io]
    {
      hide Holders, IoOk;
      ios := ios[i := io];
      forall c | 0 <= c < |mem|
        ensures RefsOk(c)
      {
        assert old(RefsOk(c));
        HoldersUpdate(old(ios), i, io, c);
      }
    }

    method Enqueue(i: nat, b: nat, n: nat)
      requires Valid() && i < |ios| && b < |mem| && owned[b] > 0 && n <= |mem[b].data|
      requires IoOk(mem, Enqueued(mem, ios[i], b, n))
      modifies this
      ensures Valid() && ios == old(ios)[i := Enqueued(old(mem), old(ios)[i], b, n)]
      ensures mem == old(mem)[b := old(mem)[b].(refcnt := old(mem)[b].refcnt + 1)]
      ensures owned == old(owned)[b := old(owned)[b] - 1] && free == old(free) && leaked == old(leaked)
    {
      hide IoOk, Accounted, AllAccounted, RefsOk;
      Accounts();
      ios := ios[i := Enqueued(mem, ios[i], b, n)];
      mem := mem[b := mem[b].(refcnt := mem[b].refcnt + 1)];
      owned := owned[b := owned[b] - 1];
      RefsAndIosKept(old(mem), mem, b);
      AllAccountedAfterQueueing(old(mem), free, old(ios), i, ios[i], b, old(owned), leaked, mem, owned);
      Accounts();
    }

    /** obus_server_send_peers: one buffer for all connected peers. Each peer's stream grows by
        the buffer's bytes; the sender's own reference survives. */
    method SendPeers(b: nat, connected: seq<bool>, rooms: seq<nat>)
      requires Valid() && b < |mem| && owned[b] > 0 && |connected| == |ios| == |rooms|
      requires forall i :: 0 <= i < |ios| && connected[i] ==> ios[i].open
      modifies this
      ensures Valid() && |ios| == |old(ios)| && |mem| == |old(mem)| && owned == old(owned) && leaked == old(leaked)
      ensures SameData(old(mem), mem)
      ensures forall i :: 0 <= i < |ios| ==>
                ios[i].submitted == old(ios)[i].submitted + if connected[i] then mem[b].data else []
      ensures forall i :: 0 <= i < |ios| && !connected[i] ==> ios[i] == old(ios)[i]
    {
      hide IoOk, RefsOk, Accounted, Holders, Min;
      var i := 0;
      while i < |ios|
        invariant Valid() && 0 <= i <= |ios| == |old(ios)| && |mem| == |old(mem)|
        invariant owned == old(owned) && leaked == old(leaked) && SameData(old(mem), mem)
        invariant forall j :: 0 <= j < i ==> ios[j].submitted == old(ios)[j].submitted + if connected[j] then mem[b].data else []
        invariant forall j :: 0 <= j < |ios| && (j >= i || !connected[j]) ==> ios[j] == old(ios)[j]
      {
        if connected[i] {
          var again := Write(i, b, rooms[i]);
          if again {
            Ref(b);
          }
        }
        i := i + 1;
      }
    }

    /** A response to one peer: the queue keeps the sender's reference when it has to wait. */
    method SendOne(i: nat, b: nat, room: nat)
      requires Valid() && i < |ios| && ios[i].open && b < |mem| && owned[b] > 0
      modifies this
      ensures Valid() && |ios| == |old(ios)|
      ensures forall j :: 0 <= j < |ios| && j != i ==> ios[j] == old(ios)[j]
      ensures ios[i].open && ios[i].submitted == old(ios)[i].submitted + old(mem)[b].data
      ensures owned == old(owned)[b := old(owned)[b] - 1] && leaked == old(leaked)
    {
      hide IoOk, RefsOk, Accounted, Holders, Min;
      var again := Write(i, b, room);
      if !again {
        Unref(b);
      }
    }

    /** obus_io_write_buffer_complete and the peer's write-done callback: two references go. */
    method Complete(i: nat)
      requires Valid() && i < |ios| && ios[i].open && ios[i].queue != []
      requires IoOk(mem, Completed(ios[i]))
      modifies this
      ensures Valid() && ios == old(ios)[i := Completed(old(ios)[i])]
      ensures owned == old(owned) && leaked == old(leaked) && SameData(old(mem), mem)
    {
      hide IoOk, Completed, Accounted, AllAccounted, RefsOk;
      var b := ios[i].queue[0];
      HeadIsHeld(i);
      Accounts();
      ios := ios[i := Completed(ios[i])];
      GiveBackTwice(b);
      AllAccountedAfterSending(old(mem), old(free), old(ios), i, owned, leaked, mem, free);
      Accounts();
    }

    /** A buffer that lost a reference is out of the pool, and every operation keeps it lost: none
        lowers leaked, and Peek hands out only free or new buffers. */
    lemma LeakedIsNotFree(b: nat)
      requires Valid() && b < |mem| && leaked[b] > 0
      ensures b !in free && mem[b].refcnt > 0
    {
      assert RefsOk(b);
    }

    lemma HeadIsHeld(i: nat)
      requires Valid() && i < |ios| && ios[i].queue != []
      ensures var b := ios[i].queue[0]; b < |mem| && mem[b].refcnt >= 2 && b !in free
    {
      assert IoOk(mem, ios[i]) && RefsOk(ios[i].queue[0]);
      CompletedHolders(ios, i, ios[i].queue[0]);
    }

    lemma Accounts()
      requires |owned| == |mem| && |leaked| == |mem|
      ensures AllAccounted(mem, free, ios, owned, leaked) <==> forall b :: 0 <= b < |mem| ==> RefsOk(b)
    {
      if AllAccounted(mem, free, ios, owned, leaked) {
        assert forall b :: 0 <= b < |mem| ==> Accounted(mem[b].refcnt, free, ios, owned[b] + leaked[b], b);
      } else {
        var b :| 0 <= b < |mem| && !Accounted(mem[b].refcnt, free, ios, owned[b] + leaked[b], b);
        assert !RefsOk(b);
      }
    }

    /** Two references to b go; at zero it returns to the pool. */
    method GiveBackTwice(b: nat)
      requires b < |mem| && mem[b].refcnt >= 2 && b !in free && NoDup(free) && InRange(free, |mem|)
      requires forall i :: 0 <= i < |ios| ==> IoOk(mem, ios[i])
      modifies this`mem, this`free
      ensures mem == old(mem)[b := old(mem)[b].(refcnt := old(mem)[b].refcnt - 2)]
      ensures free == if mem[b].refcnt == 0 then old(free) + [b] else old(free)
      ensures NoDup(free) && InRange(free, |mem|)
      ensures forall i :: 0 <= i < |ios| ==> IoOk(mem, ios[i])
    {
      mem := mem[b := mem[b].(refcnt := mem[b].refcnt - 2)];
      RefsAndIosKept(old(mem), mem, b);
      if mem[b].refcnt == 0 {
        free := free + [b];
      }
    }

    /** obus_io_write_events: drains the queue until the socket would block. */
    method WriteReady(i: nat, room: nat)
      requires Valid() && i < |ios| && ios[i].open
      modifies this
      ensures Valid() && |ios| == |old(ios)|
      ensures forall j :: 0 <= j < |ios| && j != i ==> ios[j] == old(ios)[j]
      ensures ios[i].open && ios[i].submitted == old(ios)[i].submitted
      ensures |ios[i].wire| == Min(|old(ios)[i].wire| + room, |ios[i].submitted|)
      ensures owned == old(owned) && leaked == old(leaked) && SameData(old(mem), mem)
    {
      hide IoOk, RefsOk, Accounted, Holders, Unsent, Concat;
      var left := room;
      while ios[i].queue != []
        invariant Valid() && |ios| == |old(ios)|
        invariant forall j :: 0 <= j < |ios| && j != i ==> ios[j] == old(ios)[j]
        invariant ios[i].open && ios[i].submitted == old(ios)[i].submitted
        invariant |ios[i].wire| + left == |old(ios)[i].wire| + room
        invariant owned == old(owned) && leaked == old(leaked) && SameData(old(mem), mem)
        decreases |ios[i].queue|
      {
        HeadInRange(i);
        var n, again := WriteBytes(mem[ios[i].queue[0]].data, ios[i].written, left);
        ProgressedOk(mem, ios[i], n);
        Progress(i, n);
        left := left - n;
        if again {
          WireIsPrefix(mem, ios[i]);
          return;
        }
        CompletedOk(mem, ios[i]);
        Complete(i);
      }
      WireIsPrefix(mem, ios[i]);
    }

    lemma HeadInRange(i: nat)
      requires Valid() && i < |ios| && ios[i].queue != []
      ensures IoOk(mem, ios[i]) && ios[i].queue[0] < |mem| && ios[i].written <= |mem[ios[i].queue[0]].data|
    {
    }

    method Progress(i: nat, n: nat)
      requires Valid() && i < |ios| && ios[i].queue != [] && ios[i].queue[0] < |mem|
      requires ios[i].written + n <= |mem[ios[i].queue[0]].data| && IoOk(mem, Progressed(mem, ios[i], n))
      modifies this`ios
      ensures Valid() && ios == old(ios)[i := Progressed(mem, old(ios)[i], n)]
    {
      Replace(i, Progressed(mem, ios[i], n));
    }

    /** obus_io_destroy gives back one of the two references of each queued buffer: the other is
        lost, so the buffer never returns to the pool. */
    method Teardown(i: nat)
      requires Valid() && i < |ios| && ios[i].open
      modifies this
      ensures Valid() && SameData(old(mem), mem) && |ios| == |old(ios)|
      ensures ios[i].queue == [] && !ios[i].open
      ensures forall j :: 0 <= j < |ios| && j != i ==> ios[j] == old(ios)[j]
      ensures owned == old(owned)
      ensures forall b :: 0 <= b < |mem| ==> leaked[b] == old(leaked)[b] + Count(old(ios)[i].queue, b)
      ensures leaked == old(leaked) <==> old(ios)[i].queue == []
    {
      hide IoOk, RefsOk, Accounted, AllAccounted, Holders, Count;
      var q := ios[i].queue;
      QueueInRange(i);
      Accounts();
      ios := ios[i := ios[i].(open := false, queue := [], written := 0)];
      UnrefAll(q);
      AllAccountedAfterTeardown(old(mem), free, old(ios), i, ios[i], owned, old(leaked), mem, leaked);
      Accounts();
      IosAfterTeardown(old(mem), mem, old(ios), i);
      LossIsCounted(q, old(leaked), leaked);
    }

    lemma QueueInRange(i: nat)
      requires Valid() && i < |ios|
      ensures InRange(ios[i].queue, |mem|)
    {
      assert IoOk(mem, ios[i]);
    }

    /** Lost buffers: none of them is ever given back, handed out or written to again. */
    ghost predicate StillLost(mem0: seq<Buffer>, leaked0: seq<nat>)
      reads this
      requires |mem0| == |leaked0|
    {
      |mem0| <= |mem| == |leaked| &&
      forall b :: 0 <= b < |mem0| && leaked0[b] > 0 ==> leaked[b] > 0 && b !in free && mem[b].data == mem0[b].data
    }

    /** Any use of the pool by a server: peers come and go, packets are broadcast, sockets become
        writable, in any order. What teardown has lost stays lost. */
    method Serve(work: seq<Work>)
      requires Valid()
      modifies this
      ensures Valid() && StillLost(old(mem), old(leaked))
    {
      var n := 0;
      LostAtStart();
      while n < |work|
        invariant 0 <= n <= |work| && Valid() && StillLost(old(mem), old(leaked))
      {
        ghost var mem1, leaked1 := mem, leaked;
        DoWork(work[n]);
        StaysLost(old(mem), old(leaked), mem1, leaked1);
        n := n + 1;
      }
    }

    lemma LostAtStart()
      requires Valid()
      ensures StillLost(mem, leaked)
    {
      forall b | 0 <= b < |mem| && leaked[b] > 0
        ensures b !in free
      {
        LeakedIsNotFree(b);
      }
    }

    lemma StaysLost(mem0: seq<Buffer>, leaked0: seq<nat>, mem1: seq<Buffer>, leaked1: seq<nat>)
      requires |mem0| == |leaked0| && |mem0| <= |mem1| == |leaked1| && StillLost(mem1, leaked1)
      requires forall b :: 0 <= b < |mem0| && leaked0[b] > 0 ==> leaked1[b] > 0 && mem1[b].data == mem0[b].data
      ensures StillLost(mem0, leaked0)
    {
    }

    method DoWork(w: Work)
      requires Valid()
      modifies this
      ensures Valid() && StillLost(old(mem), old(leaked))
    {
      hide IoOk, RefsOk, Accounted, Holders, Min;
      LostAtStart();
      match w {
        case Accept => Connect();
        case Broadcast(data, chosen, rooms) =>
          if |chosen| == |ios| == |rooms| && forall i :: 0 <= i < |ios| && chosen[i] ==> ios[i].open {
            var b := Peek();
            Fill(b, data);
            SendPeers(b, chosen, rooms);
            Unref(b);
          }
        case Writable(i, room) =>
          if i < |ios| && ios[i].open {
            WriteReady(i, room);
          }
        case Close(i) =>
          if i < |ios| && ios[i].open {
            Teardown(i);
          }
      }
      LostStays(old(mem), old(leaked));
    }

    lemma LostStays(mem0: seq<Buffer>, leaked0: seq<nat>)
      requires Valid() && |mem0| == |leaked0| && |mem0| <= |mem|
      requires forall b :: 0 <= b < |mem0| && leaked0[b] > 0 ==> leaked[b] > 0 && mem[b].data == mem0[b].data
      ensures StillLost(mem0, leaked0)
    {
      forall b | 0 <= b < |mem0| && leaked0[b] > 0
        ensures b !in free
      {
        LeakedIsNotFree(b);
      }
    }

    /** The teardown loop gives back one of the two references of each queue entry. */
    method UnrefAll(q: seq<nat>)
      requires InRange(q, |mem|) && |leaked| == |mem|
      modifies this`mem, this`leaked
      ensures |mem| == |old(mem)| && |leaked| == |mem|
      ensures forall c :: 0 <= c < |mem| ==>
                mem[c] == old(mem)[c].(refcnt := old(mem)[c].refcnt - Count(q, c)) && leaked[c] == old(leaked)[c] + Count(q, c)
    {
      var k := 0;
      while k < |q|
        invariant 0 <= k <= |q| && |mem| == |old(mem)| && |leaked| == |mem|
        invariant forall c :: 0 <= c < |mem| ==> mem[c] == old(mem)[c].(refcnt := old(mem)[c].refcnt - Count(q[..k], c))
        invariant forall c :: 0 <= c < |mem| ==> leaked[c] == old(leaked)[c] + Count(q[..k], c)
      {
        var b := q[k];
        mem := mem[b := mem[b].(refcnt := mem[b].refcnt - 1)];
        leaked := leaked[b := leaked[b] + 1];
        assert q[..k + 1] == q[..k] + [b];
        forall c | 0 <= c < |mem|
          ensures Count(q[..k + 1], c) == Count(q[..k], c) + if b == c then 1 else 0
        {
          CountAppend(q[..k], b, c);
        }
        k := k + 1;
      }
      assert q[..k] == q;
    }
  }

  lemma CompletedHolders(ios: seq<Io>, i: nat, c: nat)
    requires i < |ios| && ios[i].queue != []
    ensures Holders(ios[i := Completed(ios[i])], c) == Holders(ios, c) - if ios[i].queue[0] == c then 1 else 0
  {
    HoldersUpdate(ios, i, Completed(ios[i]), c);
  }

  lemma {:induction false} UnheldByAll(ios: seq<Io>, b: nat)
    requires forall i :: 0 <= i < |ios| ==> InRange(ios[i].queue, b)
    ensures Holders(ios, b) == 0
  {
    if ios != [] {
      CountIn(ios[0].queue, b);
      UnheldByAll(ios[1..], b);
    }
  }

  lemma Unheld(ios: seq<Io>, i: nat, b: nat)
    requires i < |ios| && Holders(ios, b) == 0
    ensures b !in ios[i].queue
  {
    if b in ios[i].queue {
      HoldersIn(ios, i, b);
    }
  }
}
