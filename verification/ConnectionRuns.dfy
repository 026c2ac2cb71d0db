/** What a run does to a connection, read off its handlers, their arguments and their results. */
module ConnectionRuns {
  import opened Bytes
  import opened Common
  import opened WriteQueue
  import opened ConnectionSpec

  // ----- what is sent, and what ends the connection -----

  /** Only a `writev` that sends adds to the bytes sent: the first unsent ones, as many as it says. */
  lemma {:induction false} WhatIsSent(c: Conn, op: Op)
    requires Possible(c, op)
    ensures var n := if op.HandleWrite? && op.r.Sent? then op.r.n else 0;
      n <= |Unsent(c.queue)| && Apply(c, op).sent == c.sent + Unsent(c.queue)[..n]
  {
    OfferedIsPrefix(c.queue);
    NothingAdded(c.sent);
    hide Offered, Unsent, AfterSent, AfterClose, AfterFailAll, AllBytes;
    SentAfterClosing(c);
    if op.HandleWrite? && op.r.Sent? {
      SentAfterSending(c, op.r.n);
    }
  }

  lemma SentAfterClosing(c: Conn)
    ensures AfterClose(c).sent == c.sent && AfterClose(AfterFailAll(c)).sent == c.sent
  {
    hide Callbacks;
  }

  lemma SentAfterSending(c: Conn, n: nat)
    requires n <= |Offered(c.queue)|
    ensures AfterSent(c, n).sent == c.sent + Offered(c.queue)[..n] && AfterSent(c, n).live == c.live
  {
    hide Offered, Callbacks, Advance, DrainedEpoll;
  }

  /** A handler ends the connection exactly if it closes it, or if a write of something fails. */
  lemma {:induction false} ClosesIff(c: Conn, op: Op)
    requires Possible(c, op)
    ensures !Apply(c, op).live <==> op.Close? || (op == HandleWrite(Failed) && Offered(c.queue) != [])
  {
    hide Offered, AfterSent, AfterClose, AfterFailAll, AllBytes;
    ClosedIsClosed(c);
    if op.HandleWrite? && op.r.Sent? {
      SentAfterSending(c, op.r.n);
    }
  }

  /** A `writev` that would block changes nothing. */
  lemma BlockedChangesNothing(c: Conn)
    ensures Apply(c, HandleWrite(WouldBlock)) == c
  {
    hide Offered, AfterSent, AfterClose, AfterFailAll;
  }

  // ----- water marks -----

  /**
   * Each callback is called exactly at its mark, whether or not the other one is
   * registered: high when a write leaves more than 524288 unsent bytes, low when a send
   * leaves fewer than 8192, high and low in turn.
   */
  lemma {:induction false} LevelsAtMarks(c: Conn, op: Op)
    requires Inv(c) && Possible(c, op)
    ensures var d := Apply(c, op);
      d.levels == c.levels +
        if op.Write? && |Unsent(d.queue)| > 524288 && c.highCallback && !c.highSet then [High]
        else if op.HandleWrite? && op.r.Sent? && |Unsent(d.queue)| < 8192 && c.lowCallback && c.highSet then [Low]
        else []
  {
    ApplyKeepsBytes(c, op);
    NothingAdded(c.levels);
    assert c.live && (Apply(c, op).queued == |Unsent(Apply(c, op).queue)|);
    hide Unsent, Offered, AfterSent, AfterClose, AfterFailAll, AfterWrite, Inv, BytesOk;
    match op
    case Write(ws) => LevelsAfterWrite(c, ws);
    case HandleWrite(r) =>
      LevelsAfterClosing(c);
      if r.Sent? {
        SomethingOffered(c.queue, r.n);
        LevelsAfterSending(c, r.n);
      }
    case Close => LevelsAfterClosing(c);
    case _ =>
  }

  lemma SomethingOffered(q: seq<WriteMeta>, n: nat)
    requires 0 < n <= |Offered(q)|
    ensures Offered(q) != []
  {
    hide Offered;
  }

  lemma LevelsAfterWrite(c: Conn, ws: seq<WriteMeta>)
    ensures var d := AfterWrite(c, ws);
      d.levels == c.levels + if d.queued > 524288 && c.highCallback && !c.highSet then [High] else []
  {
    NothingAdded(c.levels);
    hide AllBytes, Modify;
  }

  lemma LevelsAfterSending(c: Conn, n: nat)
    requires n <= |Offered(c.queue)|
    ensures var d := AfterSent(c, n);
      d.levels == c.levels + if d.queued < 8192 && c.lowCallback && c.highSet then [Low] else []
  {
    NothingAdded(c.levels);
    hide Offered, Callbacks, Advance, DrainedEpoll;
  }

  lemma LevelsAfterClosing(c: Conn)
    ensures AfterClose(c).levels == c.levels && AfterClose(AfterFailAll(c)).levels == c.levels
  {
    hide Callbacks;
  }

  // ----- registrations -----

  /** What each handler does to what is registered. */
  lemma {:induction false} RegisteredIff(c: Conn, op: Op)
    requires Possible(c, op)
    ensures var d := Apply(c, op);
      && (d.highCallback <==> c.highCallback || op.RegisterHigh?)
      && (d.lowCallback <==> c.lowCallback || op.RegisterLow?)
      && (d.peerClosed <==> c.peerClosed || op.Fin?)
      && (d.readRegistered <==> (c.readRegistered && !op.Fin?) || (op.RegisterRead? && !c.peerClosed))
  {
    hide Offered, AfterSent, AfterClose, AfterFailAll, AllBytes;
    RegisteredAfterClosing(c);
    if op.HandleWrite? && op.r.Sent? {
      RegisteredAfterSending(c, op.r.n);
    }
  }

  ghost predicate SameRegistered(c: Conn, d: Conn) {
    && d.highCallback == c.highCallback && d.lowCallback == c.lowCallback
    && d.peerClosed == c.peerClosed && d.readRegistered == c.readRegistered
  }

  lemma RegisteredAfterClosing(c: Conn)
    ensures SameRegistered(c, AfterClose(c)) && SameRegistered(c, AfterClose(AfterFailAll(c)))
  {
    hide Callbacks;
  }

  lemma RegisteredAfterSending(c: Conn, n: nat)
    requires n <= |Offered(c.queue)|
    ensures SameRegistered(c, AfterSent(c, n))
  {
    hide Offered, Callbacks, Advance, DrainedEpoll;
  }

  // ----- what is accepted -----

  /** The buffers that the writes of a run hand over, read off its handlers. */
  function WrittenBy(ops: seq<Op>): seq<WriteMeta> {
    if ops == [] then [] else (if ops[0].Write? then ops[0].ws else []) + WrittenBy(ops[1..])
  }

  lemma {:induction false} AcceptedStep(c: Conn, op: Op)
    requires Possible(c, op)
    ensures Apply(c, op).accepted == c.accepted + WrittenBy([op])
  {
    assert [op][1..] == [];
    NothingAdded(c.accepted);
    if op.Write? {
      NothingAdded(op.ws);
    }
    hide Offered, AfterSent, AfterClose, AfterFailAll, AllBytes, WrittenBy;
    AcceptedAfterClosing(c);
    if op.HandleWrite? && op.r.Sent? {
      AcceptedAfterSending(c, op.r.n);
    }
  }

  lemma AcceptedAfterClosing(c: Conn)
    ensures AfterClose(c).accepted == c.accepted && AfterClose(AfterFailAll(c)).accepted == c.accepted
  {
    hide Callbacks;
  }

  lemma AcceptedAfterSending(c: Conn, n: nat)
    requires n <= |Offered(c.queue)|
    ensures AfterSent(c, n).accepted == c.accepted
  {
    hide Offered, Callbacks, Advance, DrainedEpoll;
  }

  /** A run accepts exactly the buffers that its writes hand over, in order. */
  lemma {:induction false} AcceptedIsWritten(c: Conn, ops: seq<Op>)
    requires CanRun(c, ops)
    ensures Run(c, ops).accepted == c.accepted + WrittenBy(ops)
    decreases |ops|
  {
    if ops == [] {
      NothingAdded(c.accepted);
    } else {
      AcceptedStep(c, ops[0]);
      assert [ops[0]][1..] == [] && WrittenBy([ops[0]]) == (if ops[0].Write? then ops[0].ws else []) + [];
      NothingAdded(if ops[0].Write? then ops[0].ws else []);
      hide Apply, Possible;
      AcceptedIsWritten(Apply(c, ops[0]), ops[1..]);
      Assoc(c.accepted, if ops[0].Write? then ops[0].ws else [], WrittenBy(ops[1..]));
    }
  }

  /**
   * From the calls to the bytes: while the connection is open, what has been sent and what
   * is unsent are together the bytes of the buffers that the run's writes handed over.
   */
  lemma {:induction false} BytesAreWritten(c: Conn, ops: seq<Op>)
    requires c in {READING_CONN, WRITING_CONN} && CanRun(c, ops) && Run(c, ops).live
    ensures var d := Run(c, ops); d.sent + Unsent(d.queue) == AllBytes(WrittenBy(ops))
  {
    NewHasInv();
    RunKeepsInv(c, ops);
    AcceptedIsWritten(c, ops);
    NothingAdded(WrittenBy(ops));
    hide Run, CanRun, Unsent, AllBytes, SoundQueue, CallbacksOk, LevelsOk, EventsOk, ReportsOk;
  }
}
