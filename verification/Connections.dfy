/** A connection of the event loop, whose handlers update it in place. */
module Connections {
  import opened Common
  import opened Bytes
  import opened WriteQueue
  import opened ConnectionSpec

  class Connection {
    var writeQueue: seq<WriteMeta>
    var inQueueByteSize: int
    var highLevelCallback: bool
    var lowLevelCallback: bool
    var highLevelCallbackSet: bool
    var readRegistered: bool
    var writeRegistered: bool
    var peerClosed: bool
    /** The events that the epoll set holds for the descriptor, if it is in the set. */
    var epoll: Option<Events>
    /** The loop still knows the connection. */
    var live: bool
    ghost var sent: seq<byte>
    ghost var accepted: seq<WriteMeta>
    ghost var completed: nat
    ghost var callbacks: seq<Callback>
    ghost var levels: seq<Level>

    ghost function State(): Conn
      reads this
    {
      Conn(writeQueue, inQueueByteSize, highLevelCallback, lowLevelCallback, highLevelCallbackSet,
           readRegistered, writeRegistered, peerClosed, epoll, live,
           sent, accepted, completed, callbacks, levels)
    }

    constructor ForReading()
      ensures State() == READING_CONN
    {
      writeQueue, inQueueByteSize := [], 0;
      highLevelCallback, lowLevelCallback, highLevelCallbackSet := false, false, false;
      readRegistered, writeRegistered, peerClosed := true, false, false;
      epoll, live := Some(Events(true, false)), true;
      sent, accepted, completed, callbacks, levels := [], [], 0, [], [];
    }

    constructor ForWriting()
      ensures State() == WRITING_CONN
    {
      writeQueue, inQueueByteSize := [], 0;
      highLevelCallback, lowLevelCallback, highLevelCallbackSet := false, false, false;
      readRegistered, writeRegistered, peerClosed := false, true, false;
      epoll, live := Some(Events(false, true)), true;
      sent, accepted, completed, callbacks, levels := [], [], 0, [], [];
    }

    method ModifyEpollEvents(events: Events)
      modifies `epoll
      ensures epoll == Modify(old(epoll), events)
    {
      if epoll.Some? {
        epoll := Some(events);
      }
    }

    /** The high-water check and the registration at the end of both write operations. */
    method AfterEnqueue()
      modifies `highLevelCallbackSet, `levels, `writeRegistered, `epoll
      ensures var high := inQueueByteSize > HIGH_LEVEL && highLevelCallback && !old(highLevelCallbackSet);
        && highLevelCallbackSet == (old(highLevelCallbackSet) || high)
        && levels == if high then old(levels) + [High] else old(levels)
      ensures writeRegistered
      ensures epoll == if old(writeRegistered) then old(epoll) else Modify(old(epoll), Events(readRegistered, true))
    {
      if inQueueByteSize > HIGH_LEVEL {
        if highLevelCallback && !highLevelCallbackSet {
          highLevelCallbackSet := true;
          levels := levels + [High];
        }
      }
      if !writeRegistered {
        writeRegistered := true;
        if readRegistered {
          ModifyEpollEvents(Events(true, true));
        } else {
          ModifyEpollEvents(Events(false, true));
        }
      }
    }

    method Enqueue(meta: WriteMeta)
      modifies `writeQueue, `accepted, `inQueueByteSize
      ensures writeQueue == old(writeQueue) + [meta] && accepted == old(accepted) + [meta]
      ensures inQueueByteSize == old(inQueueByteSize) + |meta.buffer|
    {
      writeQueue := writeQueue + [meta];
      accepted := accepted + [meta];
      inQueueByteSize := inQueueByteSize + |meta.buffer|;
    }

    method DoAsyncWriteOnce(id: nat, buf: seq<byte>)
      requires Possible(State(), Write([WriteMeta(id, buf, 0)]))
      modifies this
      ensures State() == AfterWrite(old(State()), [WriteMeta(id, buf, 0)])
    {
      var meta := WriteMeta(id, buf, 0);
      Snoc([], meta);
      assert [] + [meta] == [meta];
      hide AllBytes, Possible;
      Enqueue(meta);
      AfterEnqueue();
    }

    method EnqueueAll(id: nat, bufs: seq<seq<byte>>)
      modifies `writeQueue, `accepted, `inQueueByteSize
      ensures writeQueue == old(writeQueue) + Metas(id, bufs) && accepted == old(accepted) + Metas(id, bufs)
      ensures inQueueByteSize == old(inQueueByteSize) + |AllBytes(Metas(id, bufs))|
    {
      hide AllBytes, Metas;
      NoMetas(id);
      for i := 0 to |bufs|
        invariant writeQueue == old(writeQueue) + Metas(id, bufs[..i])
        invariant accepted == old(accepted) + Metas(id, bufs[..i])
        invariant inQueueByteSize == old(inQueueByteSize) + |AllBytes(Metas(id, bufs[..i]))|
      {
        MetasStep(id, bufs, i);
        Enqueue(WriteMeta(id + i, bufs[i], 0));
      }
      assert bufs[..|bufs|] == bufs;
    }

    /** The `i`-th buffer of a batch has callback `id + i`. */
    method DoAsyncWriteBatch(id: nat, bufs: seq<seq<byte>>)
      requires Possible(State(), Write(Metas(id, bufs)))
      modifies this
      ensures State() == AfterWrite(old(State()), Metas(id, bufs))
    {
      hide AllBytes, Possible, Metas;
      EnqueueAll(id, bufs);
      AfterEnqueue();
    }

    method FailAllPendingWrites()
      modifies `writeQueue, `inQueueByteSize, `callbacks
      ensures State() == AfterFailAll(old(State()))
    {
      if writeQueue != [] {
        ghost var all := callbacks + Callbacks(writeQueue, false);
        while writeQueue != []
          invariant callbacks + Callbacks(writeQueue, false) == all
          decreases |writeQueue|
        {
          callbacks := callbacks + [Callback(writeQueue[0].id, false)];
          writeQueue := writeQueue[1..];
        }
        inQueueByteSize := 0;
      }
    }

    method CloseConnection()
      modifies this
      ensures State() == AfterClose(old(State()))
    {
      epoll := None;
      if !live {
        return;
      }
      live := false;
      FailAllPendingWrites();
    }

    /** The buffers of one `writev`; empty ones are left out. */
    method Gather() returns (iovs: seq<seq<byte>>, total: nat)
      requires SoundQueue(writeQueue)
      ensures Concat(iovs) == Offered(writeQueue) && total == |Offered(writeQueue)|
      ensures iovs == [] <==> total == 0
    {
      var count := if |writeQueue| < IOV_MAX then |writeQueue| else IOV_MAX;
      iovs, total := [], 0;
      for i := 0 to count
        invariant Concat(iovs) == Unsent(writeQueue[..i]) && total == |Concat(iovs)|
        invariant iovs == [] <==> total == 0
      {
        var data := writeQueue[i];
        var iov := data.buffer[data.offset..];
        assert writeQueue[..i + 1] == writeQueue[..i] + [data];
        Snoc(writeQueue[..i], data);
        if |iov| > 0 {
          ConcatSnoc(iovs, iov);
          iovs := iovs + [iov];
        }
        total := total + |iov|;
      }
    }

    /** One buffer of the loop below; `rest` is what remains of the `n` sent bytes. */
    method ConsumeFront(n: nat) returns (rest: nat)
      requires SoundQueue(writeQueue) && writeQueue != [] && n > 0
      modifies `writeQueue, `callbacks, `completed
      ensures SoundQueue(writeQueue) && Advance(writeQueue, rest) == Advance(old(writeQueue), n)
      ensures if |writeQueue| < |old(writeQueue)| then
                && writeQueue == old(writeQueue)[1..] && completed == old(completed) + 1
                && callbacks == old(callbacks) + [Callback(old(writeQueue)[0].id, true)]
              else
                && rest == 0 && |writeQueue| == |old(writeQueue)|
                && completed == old(completed) && callbacks == old(callbacks)
    {
      AdvanceFront(writeQueue, n);
      hide Advance, SoundQueue, Rest;
      var meta := writeQueue[0];
      var unsent := |meta.buffer| - meta.offset;
      if n >= unsent {
        rest := n - unsent;
        callbacks := callbacks + [Callback(meta.id, true)];
        completed := completed + 1;
        writeQueue := writeQueue[1..];
      } else {
        writeQueue := [meta.(offset := meta.offset + n)] + writeQueue[1..];
        rest := 0;
        AdvanceAtEnd(writeQueue);
      }
    }

    /** Takes `n` sent bytes off the queue, calling back for every buffer that is complete. */
    method Consume(n: nat)
      requires SoundQueue(writeQueue)
      modifies `writeQueue, `callbacks, `completed
      ensures writeQueue == Advance(old(writeQueue), n)
      ensures completed == old(completed) + (|old(writeQueue)| - |writeQueue|)
      ensures callbacks == old(callbacks) + Callbacks(old(writeQueue)[..|old(writeQueue)| - |writeQueue|], true)
    {
      hide Callbacks, Advance, SoundQueue;
      ghost var q, d := writeQueue, 0;
      var remaining: nat := n;
      NoCallback(q);
      while writeQueue != [] && remaining > 0
        invariant SoundQueue(writeQueue) && Advance(writeQueue, remaining) == Advance(q, n)
        invariant d + |writeQueue| == |q| && completed == old(completed) + d
        invariant callbacks == old(callbacks) + Callbacks(q[..d], true)
        invariant remaining > 0 ==> writeQueue == q[d..]
        decreases |writeQueue|, remaining
      {
        ghost var before := writeQueue;
        remaining := ConsumeFront(remaining);
        if |writeQueue| < |before| {
          NextCallback(q, d);
          d := d + 1;
        }
      }
      AdvanceAtEnd(writeQueue);
    }

    /** The epoll set when the queue has run empty. */
    method Disarm()
      modifies `writeRegistered, `epoll
      ensures !writeRegistered
      ensures epoll == if !peerClosed && readRegistered then Modify(old(epoll), Events(true, false)) else None
    {
      writeRegistered := false;
      if peerClosed {
        epoll := None;
      } else if readRegistered {
        ModifyEpollEvents(Events(true, false));
      } else {
        epoll := None;
      }
    }

    /** The bytes that went out are taken off the books and off the queue. */
    method TakeSent(n: nat, iovs: seq<seq<byte>>)
      requires live && BytesOk(State()) && Concat(iovs) == Offered(writeQueue) && n <= |Offered(writeQueue)|
      modifies `sent, `inQueueByteSize, `writeQueue, `callbacks, `completed
      ensures writeQueue == Advance(old(writeQueue), n)
      ensures inQueueByteSize == old(inQueueByteSize) - n
      ensures sent == old(sent) + Offered(old(writeQueue))[..n]
      ensures completed == old(completed) + (|old(writeQueue)| - |writeQueue|)
      ensures callbacks == old(callbacks) + Callbacks(old(writeQueue)[..|old(writeQueue)| - |writeQueue|], true)
    {
      hide BytesOk, SoundQueue, Callbacks, Advance, Offered;
      SentFacts(State(), n);
      sent := sent + Concat(iovs)[..n];
      inQueueByteSize := inQueueByteSize - n;
      if inQueueByteSize < 0 {
        assert false;
      }
      Consume(n);
    }

    /** The part of `handleWrite` after `n` bytes of `iovs` have gone out. */
    method OnSent(n: nat, iovs: seq<seq<byte>>)
      requires live && BytesOk(State()) && Concat(iovs) == Offered(writeQueue) && n <= |Offered(writeQueue)|
      modifies this
      ensures State() == AfterSent(old(State()), n)
    {
      hide BytesOk, SoundQueue, Callbacks, Advance, Offered;
      TakeSent(n, iovs);
      if writeQueue == [] {
        Disarm();
      }
      CheckLowLevel();
    }

    method CheckLowLevel()
      modifies `highLevelCallbackSet, `levels
      ensures var low := old(highLevelCallbackSet) && inQueueByteSize < LOW_LEVEL && lowLevelCallback;
        && highLevelCallbackSet == (old(highLevelCallbackSet) && !low)
        && levels == if low then old(levels) + [Low] else old(levels)
    {
      if highLevelCallbackSet && inQueueByteSize < LOW_LEVEL {
        if lowLevelCallback {
          highLevelCallbackSet := false;
          levels := levels + [Low];
        }
      }
    }

    /** `handleWrite`; `r` is what `writev` says if it is called. */
    method HandleWrite(r: WriteResult)
      requires live && BytesOk(State()) && (r.Sent? ==> 0 < r.n <= |Offered(writeQueue)|)
      modifies this
      ensures State() == AfterHandleWrite(old(State()), r)
    {
      hide AfterSent, AfterFailAll, AfterClose, Offered;
      var iovs, total := Gather();
      if iovs == [] {
        return;
      }
      match r
      case WouldBlock =>
      case Failed =>
        FailAllPendingWrites();
        CloseConnection();
      case Sent(n) => OnSent(n, iovs);
    }

    /** `handleRead` when `read` returns 0. */
    method HandleFin()
      modifies this
      ensures State() == AfterFin(old(State()))
    {
      peerClosed := true;
      readRegistered := false;
      if writeQueue != [] {
        if !writeRegistered {
          writeRegistered := true;
          ModifyEpollEvents(Events(false, true));
        } else {
          ModifyEpollEvents(Events(false, true));
        }
      } else {
        writeRegistered := false;
        epoll := None;
      }
    }

    /** `doRegisterRead` on an existing connection. */
    method DoRegisterRead()
      modifies this
      ensures State() == AfterRegisterRead(old(State()))
    {
      if peerClosed {
        return;
      }
      if !readRegistered {
        readRegistered := true;
        if writeRegistered {
          ModifyEpollEvents(Events(true, true));
        } else {
          ModifyEpollEvents(Events(true, false));
        }
      }
    }

    method DoRegisterHighLevelCallback()
      modifies this
      ensures State() == Apply(old(State()), RegisterHigh)
    {
      highLevelCallback := true;
    }

    method DoRegisterLowLevelCallback()
      modifies this
      ensures State() == Apply(old(State()), RegisterLow)
    {
      lowLevelCallback := true;
    }
  }

  /** The queue entries of a batch. */
  function Metas(id: nat, bufs: seq<seq<byte>>): (q: seq<WriteMeta>)
    ensures |q| == |bufs|
  {
    if bufs == [] then []
    else
      var k := |bufs| - 1;
      Metas(id, bufs[..k]) + [WriteMeta(id + k, bufs[k], 0)]
  }

  lemma NoMetas(id: nat)
    ensures Metas(id, []) == [] && AllBytes(Metas(id, [])) == []
  {
  }

  lemma {:induction false} MetasStep(id: nat, bufs: seq<seq<byte>>, i: nat)
    requires i < |bufs|
    ensures var m := WriteMeta(id + i, bufs[i], 0);
      && Metas(id, bufs[..i + 1]) == Metas(id, bufs[..i]) + [m]
      && AllBytes(Metas(id, bufs[..i + 1])) == AllBytes(Metas(id, bufs[..i])) + bufs[i]
  {
    assert bufs[..i + 1][..i] == bufs[..i];
    Snoc(Metas(id, bufs[..i]), WriteMeta(id + i, bufs[i], 0));
  }

  lemma {:induction false} NextCallback(q: seq<WriteMeta>, d: nat)
    requires d < |q|
    ensures Callbacks(q[..d + 1], true) == Callbacks(q[..d], true) + [Callback(q[d].id, true)]
  {
    assert q[..d + 1] == q[..d] + [q[d]];
    CallbacksAppend(q[..d], [q[d]], true);
    assert [q[d]][1..] == [];
  }

  lemma NoCallback(q: seq<WriteMeta>)
    ensures q[..0] == [] && q[0..] == q && Callbacks(q[..0], true) == []
  {
  }

  lemma {:induction false} SentFacts(c: Conn, n: nat)
    requires BytesOk(c) && c.live && n <= |Offered(c.queue)|
    ensures SoundQueue(c.queue) && c.queued >= n
  {
    SentKeepsBytes(c, n);
  }

  lemma AdvanceAtEnd(q: seq<WriteMeta>)
    ensures Advance(q, 0) == q
    ensures q == [] ==> forall n: nat :: Advance(q, n) == []
  {
  }

  /** One turn of the loop that takes sent bytes off the queue. */
  lemma AdvanceFront(q: seq<WriteMeta>, n: nat)
    requires q != [] && n > 0 && SoundQueue(q)
    ensures |Rest(q[0])| == |q[0].buffer| - q[0].offset
    ensures if n >= |Rest(q[0])| then SoundQueue(q[1..]) && Advance(q, n) == Advance(q[1..], n - |Rest(q[0])|)
            else var r := [q[0].(offset := q[0].offset + n)] + q[1..]; SoundQueue(r) && Advance(q, n) == r
  {
  }
}
