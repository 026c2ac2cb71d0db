/** When the loop stops watching a connection, and what becomes of later writes. */
module Watching {
  import opened Bytes
  import opened Common
  import opened WriteQueue
  import opened ConnectionSpec

  /** A handler empties the queue, or finds it empty when the peer closes its side. */
  ghost predicate FindsNothingToWrite(c: Conn, op: Op)
    requires Possible(c, op)
  {
    match op
    case HandleWrite(r) => r.Sent? && Advance(c.queue, r.n) == []
    case Fin => c.queue == []
    case _ => false
  }

  /**
   * The descriptor leaves the epoll set of an open connection exactly when nothing is left
   * to write and nothing is to be read: the peer has closed its side, does so now, or the
   * connection was never registered for reading.
   */
  lemma {:induction false} LeavesSetIff(c: Conn, op: Op)
    requires Possible(c, op) && c.epoll.Some? && Apply(c, op).live
    ensures Apply(c, op).epoll == None
       <==> FindsNothingToWrite(c, op) && (op.Fin? || c.peerClosed || !c.readRegistered)
  {
    hide Offered, AfterSent, AfterClose, AfterFailAll, AfterWrite;
    match op
    case Write(ws) => SetAfterWrite(c, ws);
    case HandleWrite(r) =>
      ClosedIsClosed(c);
      if r.Sent? {
        SetAfterSent(c, r.n);
      }
    case Close => ClosedIsClosed(c);
    case _ =>
  }

  lemma SetAfterWrite(c: Conn, ws: seq<WriteMeta>)
    ensures AfterWrite(c, ws).epoll == None <==> c.epoll == None
  {
    hide AllBytes;
  }

  lemma SetAfterSent(c: Conn, n: nat)
    requires n <= |Offered(c.queue)|
    ensures AfterSent(c, n).epoll == None
       <==> c.epoll == None || (Advance(c.queue, n) == [] && (c.peerClosed || !c.readRegistered))
  {
    hide Callbacks, Advance, Offered;
  }

  lemma {:induction false} DetachedStep(c: Conn, op: Op)
    requires Possible(c, op) && c.epoll == None
    ensures Apply(c, op).epoll == None
  {
    hide Offered, AfterSent, AfterClose, AfterFailAll, AfterWrite;
    match op
    case Write(ws) => SetAfterWrite(c, ws);
    case HandleWrite(r) =>
      ClosedIsClosed(c);
      if r.Sent? {
        SetAfterSent(c, r.n);
      }
    case Close => ClosedIsClosed(c);
    case _ =>
  }

  /** The loop calls `handleWrite` only for a descriptor that the kernel reports. */
  ghost predicate WritesWhenReported(c: Conn, ops: seq<Op>)
    requires CanRun(c, ops)
    decreases |ops|
  {
    ops != [] ==> (ops[0].HandleWrite? ==> Armed(c)) && WritesWhenReported(Apply(c, ops[0]), ops[1..])
  }

  lemma {:induction false} QueueGrows(c: Conn, op: Op)
    requires Possible(c, op) && !op.HandleWrite?
    ensures var d := Apply(c, op); d.sent == c.sent && (d.live ==> c.queue <= d.queue)
  {
    ClosedIsClosed(c);
    SentAfterClose(c);
    hide Offered, AfterClose, AfterFailAll, AllBytes;
  }

  lemma SentAfterClose(c: Conn)
    ensures AfterClose(c).sent == c.sent
  {
    hide Callbacks;
  }

  /**
   * Once out of the set, for ever: a connection that the loop no longer watches is never
   * watched again, nothing is sent any more, and whatever is queued stays queued until the
   * connection is closed.
   */
  lemma {:induction false} DetachedForEver(c: Conn, ops: seq<Op>)
    requires c.epoll == None && CanRun(c, ops) && WritesWhenReported(c, ops)
    ensures var d := Run(c, ops);
      d.epoll == None && !Armed(d) && d.sent == c.sent && (d.live ==> c.queue <= d.queue)
    decreases |ops|
  {
    if ops != [] {
      DetachedStep(c, ops[0]);
      QueueGrows(c, ops[0]);
      var d := Apply(c, ops[0]);
      if !d.live {
        ClosedStays(d, ops[1..]);
      }
      hide Apply, Possible;
      DetachedForEver(d, ops[1..]);
    }
  }

  const LATE: WriteMeta := WriteMeta(0, [7], 0)
  const HALF_CLOSED_RUN: seq<Op> := [Fin] + ([Write([LATE])] + [])

  lemma LateIsOneByte()
    ensures |AllBytes([LATE])| == 1
  {
    assert [LATE][1..] == [];
  }

  /** The peer closes its side, then the application answers: the answer is queued for good. */
  lemma {:induction false} HalfClosedAnswerIsNeverSent(ops: seq<Op>)
    ensures CanRun(READING_CONN, HALF_CLOSED_RUN)
    ensures var c := Run(READING_CONN, HALF_CLOSED_RUN);
      && c.live && c.queue == [LATE] && c.epoll == None
      && (CanRun(c, ops) && WritesWhenReported(c, ops) && Run(c, ops).live ==>
            [LATE] <= Run(c, ops).queue && Run(c, ops).sent == [])
  {
    LateIsOneByte();
    var d := AfterFin(READING_CONN);
    var c := AfterWrite(d, [LATE]);
    assert c.queue == [LATE] && c.live && c.epoll == None && c.sent == [];
    hide AllBytes, AfterFin, AfterWrite, WritesWhenReported;
    RunNothing(c);
    RunFirst(d, Write([LATE]), c, []);
    RunFirst(READING_CONN, Fin, d, [Write([LATE])] + []);
    if CanRun(c, ops) && WritesWhenReported(c, ops) {
      DetachedForEver(c, ops);
    }
  }
}
