/**
 * What the handlers of one connection do to its state, and what every run of them keeps.
 * `sent`, `accepted`, `completed`, `callbacks` and `levels` record what has happened.
 */
module ConnectionSpec {
  import opened Common
  import opened Bytes
  import opened WriteQueue

  const HIGH_LEVEL: int := 1024 * 512
  const LOW_LEVEL: int := 1024 * 8
  const INT_MAX: int := 0x7fff_ffff

  datatype Callback = Callback(id: nat, success: bool)
  datatype Level = High | Low
  datatype Events = Events(input: bool, output: bool)

  /** What `writev` reports. */
  datatype WriteResult = Sent(n: nat) | WouldBlock | Failed

  datatype Conn = Conn(
    queue: seq<WriteMeta>, queued: int,
    highCallback: bool, lowCallback: bool, highSet: bool,
    readRegistered: bool, writeRegistered: bool, peerClosed: bool,
    epoll: Option<Events>, live: bool,
    sent: seq<byte>, accepted: seq<WriteMeta>, completed: nat,
    callbacks: seq<Callback>, levels: seq<Level>)

  /** A connection made by `doRegisterRead`. */
  const READING_CONN := Conn([], 0, false, false, false, true, false, false, Some(Events(true, false)), true, [], [], 0, [], [])

  /** A write-only connection made by the first write. */
  const WRITING_CONN := Conn([], 0, false, false, false, false, true, false, Some(Events(false, true)), true, [], [], 0, [], [])

  /** `EPOLL_CTL_MOD`: nothing happens to a descriptor that is not in the set. */
  function Modify(epoll: Option<Events>, events: Events): Option<Events> {
    if epoll == None then None else Some(events)
  }

  function Callbacks(q: seq<WriteMeta>, success: bool): seq<Callback> {
    if q == [] then [] else [Callback(q[0].id, success)] + Callbacks(q[1..], success)
  }

  /** `doAsyncWriteOnce` (one buffer) and `doAsyncWriteBatch`. */
  function AfterWrite(c: Conn, ws: seq<WriteMeta>): Conn {
    var queued := c.queued + |AllBytes(ws)|;
    var high := queued > HIGH_LEVEL && c.highCallback && !c.highSet;
    c.(queue := c.queue + ws, accepted := c.accepted + ws, queued := queued,
       highSet := c.highSet || high,
       levels := if high then c.levels + [High] else c.levels,
       writeRegistered := true,
       epoll := if c.writeRegistered then c.epoll else Modify(c.epoll, Events(c.readRegistered, true)))
  }

  /** `failAllPendingWrites`. */
  function AfterFailAll(c: Conn): Conn {
    if c.queue == [] then c
    else c.(queue := [], queued := 0, callbacks := c.callbacks + Callbacks(c.queue, false))
  }

  /** `closeConnection`. */
  function AfterClose(c: Conn): Conn {
    if !c.live then c.(epoll := None) else AfterFailAll(c.(epoll := None, live := false))
  }

  /** The epoll set of a connection whose queue has run empty. */
  function DrainedEpoll(c: Conn): Option<Events> {
    if !c.peerClosed && c.readRegistered then Modify(c.epoll, Events(true, false)) else None
  }

  /** `handleWrite` when `n` bytes of what was offered went out. */
  function AfterSent(c: Conn, n: nat): Conn
    requires n <= |Offered(c.queue)|
  {
    var queue := Advance(c.queue, n);
    var done := |c.queue| - |queue|;
    var queued := c.queued - n;
    var low := c.highSet && queued < LOW_LEVEL && c.lowCallback;
    c.(queue := queue, queued := queued, sent := c.sent + Offered(c.queue)[..n],
       completed := c.completed + done,
       callbacks := c.callbacks + Callbacks(c.queue[..done], true),
       writeRegistered := c.writeRegistered && queue != [],
       epoll := if queue == [] then DrainedEpoll(c) else c.epoll,
       highSet := c.highSet && !low,
       levels := if low then c.levels + [Low] else c.levels)
  }

  function AfterHandleWrite(c: Conn, r: WriteResult): Conn
    requires r.Sent? ==> r.n <= |Offered(c.queue)|
  {
    if Offered(c.queue) == [] then c
    else
      match r
      case WouldBlock => c
      case Failed => AfterClose(AfterFailAll(c))
      case Sent(n) => AfterSent(c, n)
  }

  /** `handleRead` when the peer has closed its side. */
  function AfterFin(c: Conn): Conn {
    c.(peerClosed := true, readRegistered := false, writeRegistered := c.queue != [],
       epoll := if c.queue != [] then Modify(c.epoll, Events(false, true)) else None)
  }

  /** `doRegisterRead` on a connection that exists. */
  function AfterRegisterRead(c: Conn): Conn {
    if c.peerClosed || c.readRegistered then c
    else c.(readRegistered := true, epoll := Modify(c.epoll, Events(true, c.writeRegistered)))
  }

  datatype Op =
    | Write(ws: seq<WriteMeta>)
    | HandleWrite(r: WriteResult)
    | Fin
    | RegisterRead
    | RegisterHigh
    | RegisterLow
    | Close

  /** Handlers reach a connection only while it is known; the byte total fits in an `int`. */
  ghost predicate Possible(c: Conn, op: Op) {
    && c.live
    && (op.Write? ==>
          (forall i :: 0 <= i < |op.ws| ==> op.ws[i].offset == 0) && c.queued + |AllBytes(op.ws)| <= INT_MAX)
    && (op.HandleWrite? && op.r.Sent? ==> 0 < op.r.n <= |Offered(c.queue)|)
  }

  function Apply(c: Conn, op: Op): Conn
    requires op.HandleWrite? && op.r.Sent? ==> op.r.n <= |Offered(c.queue)|
  {
    match op
    case Write(ws) => AfterWrite(c, ws)
    case HandleWrite(r) => AfterHandleWrite(c, r)
    case Fin => AfterFin(c)
    case RegisterRead => AfterRegisterRead(c)
    case RegisterHigh => c.(highCallback := true)
    case RegisterLow => c.(lowCallback := true)
    case Close => AfterClose(c)
  }

  /** No handler takes a callback back. */
  lemma CallbacksGrow(c: Conn, op: Op)
    requires Possible(c, op)
    ensures c.callbacks <= Apply(c, op).callbacks
  {
    hide Callbacks, Advance, Offered, AllBytes, Unsent, AfterSent, AfterClose, AfterFailAll, AfterWrite;
    match op
    case Write(ws) => CallbacksAfterWrite(c, ws);
    case HandleWrite(r) =>
      CallbacksAfterClose(c);
      if r.Sent? {
        CallbacksAfterSent(c, r.n);
      }
    case Close => CallbacksAfterClose(c);
    case _ =>
  }

  lemma CallbacksAfterWrite(c: Conn, ws: seq<WriteMeta>)
    ensures AfterWrite(c, ws).callbacks == c.callbacks
  {
    hide AllBytes;
  }

  lemma CallbacksAfterSent(c: Conn, n: nat)
    requires n <= |Offered(c.queue)|
    ensures c.callbacks <= AfterSent(c, n).callbacks
  {
    hide Callbacks, Advance, Offered, DrainedEpoll;
  }

  lemma CallbacksAfterClose(c: Conn)
    ensures c.callbacks <= AfterClose(c).callbacks && c.callbacks <= AfterClose(AfterFailAll(c)).callbacks
  {
    CallbacksAfterFailAll(c.(epoll := None, live := false));
    CallbacksAfterFailAll(c);
    CallbacksAfterFailAll(AfterFailAll(c).(epoll := None, live := false));
    hide AfterFailAll;
  }

  lemma CallbacksAfterFailAll(c: Conn)
    ensures c.callbacks <= AfterFailAll(c).callbacks
  {
    hide Callbacks;
  }

  // ----- bytes -----

  /** Everything accepted is either sent or still queued, in order, and is accounted for. */
  ghost predicate BytesOk(c: Conn) {
    && SoundQueue(c.queue)
    && c.queued == |Unsent(c.queue)|
    && (if c.live then c.sent + Unsent(c.queue) == AllBytes(c.accepted)
        else c.queue == [] && c.sent <= AllBytes(c.accepted))
  }

  lemma {:induction false} WriteKeepsBytes(c: Conn, ws: seq<WriteMeta>)
    requires BytesOk(c) && c.live && forall i :: 0 <= i < |ws| ==> ws[i].offset == 0
    ensures BytesOk(AfterWrite(c, ws))
  {
    UnsentAppend(c.queue, ws);
    UnsentOfFresh(ws);
    AllBytesAppend(c.accepted, ws);
    hide Unsent, AllBytes;
    Assoc(c.sent, Unsent(c.queue), Unsent(ws));
  }

  lemma {:induction false} SentKeepsBytes(c: Conn, n: nat)
    requires BytesOk(c) && c.live && n <= |Offered(c.queue)|
    ensures BytesOk(AfterSent(c, n)) && AfterSent(c, n).queued >= 0
  {
    OfferedIsPrefix(c.queue);
    AdvanceSends(c.queue, n);
    hide Offered, Advance, SoundQueue, Unsent, AllBytes;
    MoveOver(c.sent, Offered(c.queue), Unsent(c.queue), n);
  }

  /** `n` bytes that are offered go from the unsent ones to the sent ones. */
  lemma MoveOver(sent: seq<byte>, offered: seq<byte>, unsent: seq<byte>, n: nat)
    requires offered <= unsent && n <= |offered|
    ensures (sent + offered[..n]) + unsent[n..] == sent + unsent
    ensures |unsent[n..]| == |unsent| - n
  {
    assert offered[..n] == unsent[..n];
    Assoc(sent, unsent[..n], unsent[n..]);
    assert unsent == unsent[..n] + unsent[n..];
  }

  lemma {:induction false} ClosingKeepsBytes(c: Conn)
    requires BytesOk(c)
    ensures BytesOk(AfterClose(c)) && BytesOk(AfterClose(AfterFailAll(c)))
  {
    assert c.live ==> c.sent <= c.sent + Unsent(c.queue);
    assert Unsent([]) == [];
  }

  // ----- callbacks -----

  /** Callbacks fire in order: `true` for what is completely sent, and at the end `false` for the rest. */
  ghost predicate CallbacksOk(c: Conn) {
    && c.completed <= |c.accepted|
    && c.callbacks == Callbacks(c.accepted[..c.completed], true)
         + (if c.live then [] else Callbacks(c.accepted[c.completed..], false))
    && (c.live ==> SameWrites(c.queue, c.accepted[c.completed..]))
  }

  lemma {:induction false} CallbacksAppend(a: seq<WriteMeta>, b: seq<WriteMeta>, success: bool)
    ensures Callbacks(a + b, success) == Callbacks(a, success) + Callbacks(b, success)
  {
    if a == [] {
      assert a + b == b;
    } else {
      CallbacksAppend(a[1..], b, success);
      assert (a + b)[1..] == a[1..] + b;
    }
  }

  lemma {:induction false} CallbacksOfSame(a: seq<WriteMeta>, b: seq<WriteMeta>, success: bool)
    requires SameWrites(a, b)
    ensures Callbacks(a, success) == Callbacks(b, success)
  {
    if a != [] {
      CallbacksOfSame(a[1..], b[1..], success);
    }
  }

  lemma {:induction false} WriteKeepsCallbacks(c: Conn, ws: seq<WriteMeta>)
    requires CallbacksOk(c) && c.live
    ensures CallbacksOk(AfterWrite(c, ws))
  {
    var t := AfterWrite(c, ws);
    assert t.accepted[..c.completed] == c.accepted[..c.completed];
    assert t.accepted[c.completed..] == c.accepted[c.completed..] + ws;
  }

  lemma {:induction false} SentKeepsCallbacks(c: Conn, n: nat)
    requires CallbacksOk(c) && c.live && n <= |Offered(c.queue)|
    ensures CallbacksOk(AfterSent(c, n))
  {
    var q := Advance(c.queue, n);
    AdvanceKeepsOrder(c.queue, n);
    hide Advance, Offered, Callbacks;
    assert c.callbacks == Callbacks(c.accepted[..c.completed], true) by {
      assert Callbacks(c.accepted[..c.completed], true) + [] == Callbacks(c.accepted[..c.completed], true);
    }
    DoneCallbacks(c.queue, q, c.accepted, c.completed);
    var t := AfterSent(c, n);
    assert t.queue == q && t.accepted == c.accepted && t.live;
    assert t.completed == c.completed + (|c.queue| - |q|);
    assert t.callbacks == Callbacks(c.accepted[..t.completed], true);
    assert t.callbacks + [] == t.callbacks;
  }

  /** The callbacks of the buffers that have left the queue are those of the next writes. */
  lemma {:induction false} DoneCallbacks(queue: seq<WriteMeta>, q: seq<WriteMeta>, accepted: seq<WriteMeta>, k: nat)
    requires k <= |accepted| && SameWrites(queue, accepted[k..])
    requires |q| <= |queue| && SameWrites(q, queue[|queue| - |q|..])
    ensures var d := |queue| - |q|;
      && Callbacks(accepted[..k], true) + Callbacks(queue[..d], true) == Callbacks(accepted[..k + d], true)
      && SameWrites(q, accepted[k + d..])
  {
    hide Callbacks, SameWrites;
    var d, ws := |queue| - |q|, accepted[k..];
    SameParts(queue, ws, q);
    assert accepted[..k + d] == accepted[..k] + ws[..d] && accepted[k + d..] == ws[d..];
    CallbacksAppend(accepted[..k], ws[..d], true);
    CallbacksOfSame(queue[..d], ws[..d], true);
  }

  lemma SameParts(queue: seq<WriteMeta>, ws: seq<WriteMeta>, q: seq<WriteMeta>)
    requires SameWrites(queue, ws) && |q| <= |queue| && SameWrites(q, queue[|queue| - |q|..])
    ensures var d := |queue| - |q|;
      d <= |ws| && SameWrites(queue[..d], ws[..d]) && SameWrites(q, ws[d..])
  {
    var d := |queue| - |q|;
    forall i | 0 <= i < |q|
      ensures q[i].id == ws[d..][i].id && q[i].buffer == ws[d..][i].buffer
    {
      assert queue[d..][i] == queue[d + i] && ws[d..][i] == ws[d + i];
    }
  }

  lemma {:induction false} CloseKeepsCallbacks(c: Conn)
    requires CallbacksOk(c) && c.live
    ensures CallbacksOk(AfterClose(c)) && AfterClose(AfterFailAll(c)) == AfterClose(c)
  {
    CallbacksOfSame(c.queue, c.accepted[c.completed..], false);
  }

  // ----- water marks -----

  ghost predicate Alternating(levels: seq<Level>) {
    forall i :: 0 <= i < |levels| ==> levels[i] == if i % 2 == 0 then High else Low
  }

  /** High and low alternate, high first, and the flag says which one was last. */
  ghost predicate LevelsOk(c: Conn) {
    Alternating(c.levels) && (c.highSet <==> |c.levels| % 2 == 1)
  }

  /** Both callbacks are registered and the flag agrees with the water marks. */
  ghost predicate Within(c: Conn) {
    && c.highCallback && c.lowCallback
    && (c.queued > HIGH_LEVEL ==> c.highSet)
    && (c.highSet ==> c.queued >= LOW_LEVEL)
  }

  // ----- event registration -----

  /** Queued bytes are registered for writing, and the epoll set follows the two flags. */
  ghost predicate EventsOk(c: Conn) {
    && (c.queue != [] ==> c.writeRegistered)
    && (c.peerClosed ==> !c.readRegistered)
    && (c.epoll.Some? ==> c.epoll.value == Events(c.readRegistered, c.writeRegistered))
    && (!c.live ==> c.epoll == None)
  }

  /** The kernel will report that the queue can be written. */
  ghost predicate Armed(c: Conn) {
    c.epoll.Some? && c.epoll.value.output
  }

  /** Whatever was reported as sent has been sent. */
  ghost predicate ReportsOk(c: Conn) {
    c.completed <= |c.accepted| && AllBytes(c.accepted[..c.completed]) <= c.sent
  }

  ghost predicate Inv(c: Conn) {
    BytesOk(c) && CallbacksOk(c) && LevelsOk(c) && EventsOk(c) && ReportsOk(c)
  }

  lemma NewHasInv()
    ensures Inv(READING_CONN) && Inv(WRITING_CONN)
  {
    assert Unsent([]) == [] && AllBytes([]) == [];
    assert READING_CONN.accepted[..0] == [] && READING_CONN.accepted[0..] == [];
  }

  lemma ApplyKeepsBytes(c: Conn, op: Op)
    requires BytesOk(c) && Possible(c, op)
    ensures BytesOk(Apply(c, op))
  {
    match op
    case Write(ws) => WriteKeepsBytes(c, ws);
    case HandleWrite(r) =>
      ClosingKeepsBytes(c);
      hide BytesOk, Offered;
      if r.Sent? {
        SentKeepsBytes(c, r.n);
      }
    case Close => ClosingKeepsBytes(c);
    case _ =>
  }

  lemma ApplyKeepsCallbacks(c: Conn, op: Op)
    requires CallbacksOk(c) && Possible(c, op)
    ensures CallbacksOk(Apply(c, op))
  {
    match op
    case Write(ws) => WriteKeepsCallbacks(c, ws);
    case HandleWrite(r) =>
      CloseKeepsCallbacks(c);
      hide CallbacksOk, Offered;
      if r.Sent? {
        SentKeepsCallbacks(c, r.n);
      }
    case Close => CloseKeepsCallbacks(c);
    case _ =>
  }

  lemma ApplyKeepsLevels(c: Conn, op: Op)
    requires LevelsOk(c) && Possible(c, op)
    ensures LevelsOk(Apply(c, op))
  {
    hide Offered, AfterSent, AfterClose, AfterFailAll, AfterWrite, LevelsOk;
    match op
    case Write(ws) => WriteKeepsLevels(c, ws);
    case HandleWrite(r) =>
      CloseKeepsLevels(c);
      if r.Sent? {
        SentKeepsLevels(c, r.n);
      }
    case Close => CloseKeepsLevels(c);
    case _ => SameLevels(c, Apply(c, op));
  }

  lemma SameLevels(c: Conn, d: Conn)
    requires LevelsOk(c) && d.levels == c.levels && d.highSet == c.highSet
    ensures LevelsOk(d)
  {
  }

  lemma WriteKeepsLevels(c: Conn, ws: seq<WriteMeta>)
    requires LevelsOk(c)
    ensures LevelsOk(AfterWrite(c, ws))
  {
    hide AllBytes, Modify;
  }

  lemma SentKeepsLevels(c: Conn, n: nat)
    requires LevelsOk(c) && n <= |Offered(c.queue)|
    ensures LevelsOk(AfterSent(c, n))
  {
    hide Callbacks, Advance, Offered, DrainedEpoll;
  }

  lemma CloseKeepsLevels(c: Conn)
    requires LevelsOk(c)
    ensures LevelsOk(AfterClose(c)) && LevelsOk(AfterClose(AfterFailAll(c)))
  {
    hide Callbacks, Alternating;
  }

  lemma ApplyKeepsEvents(c: Conn, op: Op)
    requires EventsOk(c) && Possible(c, op)
    ensures EventsOk(Apply(c, op))
  {
    hide Offered, Callbacks, Unsent, AllBytes;
    assert Advance(c.queue, 0) == c.queue;
    assert c.queue == [] && op.HandleWrite? && op.r.Sent? ==> Advance(c.queue, op.r.n) == [];
  }

  /** An open connection reports a buffer only when its last byte has been sent. */
  lemma {:induction false} ReportedIsSent(c: Conn)
    requires BytesOk(c) && CallbacksOk(c) && c.live
    ensures ReportsOk(c)
  {
    var k := c.completed;
    assert c.accepted == c.accepted[..k] + c.accepted[k..];
    AllBytesAppend(c.accepted[..k], c.accepted[k..]);
    UnsentIsShorter(c.queue, c.accepted[k..]);
    PrefixByLength(c.sent, Unsent(c.queue), AllBytes(c.accepted[..k]), AllBytes(c.accepted[k..]));
  }

  lemma {:induction false} UnsentIsShorter(q: seq<WriteMeta>, ws: seq<WriteMeta>)
    requires SameWrites(q, ws)
    ensures |Unsent(q)| <= |AllBytes(ws)|
  {
    if q != [] {
      UnsentIsShorter(q[1..], ws[1..]);
    }
  }

  lemma PrefixByLength(a: seq<byte>, b: seq<byte>, c: seq<byte>, d: seq<byte>)
    requires a + b == c + d && |b| <= |d|
    ensures c <= a
  {
    assert (a + b)[..|c|] == (c + d)[..|c|];
  }

  lemma ApplyKeepsReports(c: Conn, op: Op)
    requires BytesOk(c) && CallbacksOk(c) && ReportsOk(c) && Possible(c, op)
    ensures ReportsOk(Apply(c, op))
  {
    ApplyKeepsBytes(c, op);
    ApplyKeepsCallbacks(c, op);
    if Apply(c, op).live {
      hide BytesOk, CallbacksOk, Possible, Apply, ReportsOk;
      ReportedIsSent(Apply(c, op));
    } else {
      hide BytesOk, CallbacksOk, Advance, Offered, Callbacks;
    }
  }

  /** Every handler keeps the invariant of the connection. */
  lemma ApplyKeepsInv(c: Conn, op: Op)
    requires Inv(c) && Possible(c, op)
    ensures Inv(Apply(c, op))
  {
    hide BytesOk, CallbacksOk, LevelsOk, EventsOk, ReportsOk, Possible, Apply;
    ApplyKeepsBytes(c, op);
    ApplyKeepsCallbacks(c, op);
    ApplyKeepsLevels(c, op);
    ApplyKeepsEvents(c, op);
    ApplyKeepsReports(c, op);
  }

  /** A closed connection has called every callback once, in order: `true` first, then only `false`. */
  lemma {:induction false} EveryCallbackOnce(c: Conn)
    requires Inv(c) && !c.live
    ensures |c.callbacks| == |c.accepted|
    ensures forall i :: 0 <= i < |c.accepted| ==> c.callbacks[i] == Callback(c.accepted[i].id, i < c.completed)
  {
    hide BytesOk, LevelsOk, EventsOk, ReportsOk, Callbacks;
    CallbacksAt(c.accepted[..c.completed], true);
    CallbacksAt(c.accepted[c.completed..], false);
  }

  lemma {:induction false} CallbacksAt(q: seq<WriteMeta>, success: bool)
    ensures |Callbacks(q, success)| == |q|
    ensures forall i :: 0 <= i < |q| ==> Callbacks(q, success)[i] == Callback(q[i].id, success)
  {
    if q != [] {
      CallbacksAt(q[1..], success);
    }
  }

  /** Queued buffers without bytes: `handleWrite` then does nothing, whatever the socket says. */
  lemma {:induction false} NothingOfferedIff(c: Conn, r: WriteResult)
    requires r.Sent? ==> 0 < r.n <= |Offered(c.queue)|
    ensures Offered(c.queue) == [] <==> forall i :: 0 <= i < Min(|c.queue|, IOV_MAX) ==> Rest(c.queue[i]) == []
    ensures Offered(c.queue) == [] ==> AfterHandleWrite(c, r) == c
  {
    var q := c.queue[..Min(|c.queue|, IOV_MAX)];
    UnsentEmptyIff(q);
    hide Rest, Unsent;
    assert forall i :: 0 <= i < |q| ==> q[i] == c.queue[i];
  }

  lemma {:induction false} UnsentEmptyIff(q: seq<WriteMeta>)
    ensures Unsent(q) == [] <==> forall i :: 0 <= i < |q| ==> Rest(q[i]) == []
  {
    hide Rest;
    if q != [] {
      UnsentEmptyIff(q[1..]);
      if forall i :: 0 <= i < |q[1..]| ==> Rest(q[1..][i]) == [] {
        forall i | 1 <= i < |q|
          ensures Rest(q[i]) == []
        {
          assert q[i] == q[1..][i - 1];
        }
      }
    }
  }

  /** The water marks hold after every handler that leaves the connection open. */
  lemma ApplyKeepsWithin(c: Conn, op: Op)
    requires Within(c) && Possible(c, op) && c.queued >= 0
    ensures Apply(c, op).live ==> Within(Apply(c, op))
  {
    hide Offered, AfterSent, AfterClose, AfterFailAll, AfterWrite;
    match op
    case Write(ws) => WriteKeepsWithin(c, ws);
    case HandleWrite(r) =>
      ClosedIsClosed(c);
      if r.Sent? {
        SentKeepsWithin(c, r.n);
      }
    case Close => ClosedIsClosed(c);
    case _ =>
  }

  lemma WriteKeepsWithin(c: Conn, ws: seq<WriteMeta>)
    requires Within(c) && c.queued >= 0
    ensures Within(AfterWrite(c, ws))
  {
    hide AllBytes, Modify;
  }

  lemma SentKeepsWithin(c: Conn, n: nat)
    requires Within(c) && n <= |Offered(c.queue)|
    ensures Within(AfterSent(c, n))
  {
    hide Callbacks, Advance, Offered, DrainedEpoll;
  }

  lemma ClosedIsClosed(c: Conn)
    ensures !AfterClose(c).live && !AfterClose(AfterFailAll(c)).live
    ensures AfterClose(c).epoll == None && AfterClose(AfterFailAll(c)).epoll == None
  {
    hide Callbacks;
  }

  /** A write is armed exactly when the descriptor has not been taken out of the epoll set. */
  lemma WriteIsArmedIff(c: Conn, ws: seq<WriteMeta>)
    requires Inv(c) && Possible(c, Write(ws))
    ensures Armed(AfterWrite(c, ws)) <==> c.epoll.Some?
  {
    hide BytesOk, CallbacksOk, LevelsOk, AllBytes;
  }

  /** A connection that was registered for reading and whose peer is open stays in the epoll set. */
  ghost predicate Listening(c: Conn) {
    c.live && !c.peerClosed ==> c.readRegistered && c.epoll.Some?
  }

  lemma ApplyKeepsListening(c: Conn, op: Op)
    requires Listening(c) && Possible(c, op)
    ensures Listening(Apply(c, op))
  {
    hide Advance, Offered, Callbacks, Unsent, AllBytes;
  }

  /** So are all queued bytes of such a connection, at every moment. */
  lemma OpenIsArmed(c: Conn)
    requires Inv(c) && Listening(c) && c.live && !c.peerClosed && c.queue != []
    ensures Armed(c)
  {
    hide BytesOk, CallbacksOk, LevelsOk, ReportsOk;
  }

  /** What is armed stays armed until it is sent or failed, also when the peer closes its side. */
  lemma {:induction false} ArmedUntilSent(c: Conn, op: Op)
    requires Inv(c) && Possible(c, op) && c.queue != [] && Armed(c)
    ensures Apply(c, op).queue != [] ==> Armed(Apply(c, op))
  {
    assert EventsOk(c);
    hide Inv, Offered, AfterSent, AfterClose, AfterFailAll, AfterWrite;
    match op
    case Write(ws) => ArmedAfterWrite(c, ws);
    case HandleWrite(r) =>
      QueueAfterClose(c);
      if r.Sent? {
        ArmedAfterSent(c, r.n);
      }
    case Close => QueueAfterClose(c);
    case _ =>
  }

  lemma ArmedAfterWrite(c: Conn, ws: seq<WriteMeta>)
    requires EventsOk(c) && Armed(c)
    ensures Armed(AfterWrite(c, ws))
  {
    hide AllBytes;
  }

  lemma ArmedAfterSent(c: Conn, n: nat)
    requires n <= |Offered(c.queue)| && Armed(c)
    ensures AfterSent(c, n).queue != [] ==> Armed(AfterSent(c, n))
  {
    hide Callbacks, Advance, Offered, DrainedEpoll;
  }

  lemma QueueAfterClose(c: Conn)
    requires c.live
    ensures AfterClose(c).queue == [] && AfterClose(AfterFailAll(c)).queue == []
  {
    hide Callbacks;
  }

  /** Nothing queued, nothing registered: the loop is not woken for a queue without entries. */
  ghost predicate Disarmed(c: Conn) {
    c.live && c.queue == [] ==> !c.writeRegistered && (c.epoll.Some? ==> !c.epoll.value.output)
  }

  lemma {:induction false} ApplyKeepsDisarmed(c: Conn, op: Op)
    requires Inv(c) && Disarmed(c) && Possible(c, op) && (op.Write? ==> op.ws != [])
    ensures Disarmed(Apply(c, op))
  {
    hide BytesOk, CallbacksOk, LevelsOk, ReportsOk, Advance, Offered, Callbacks, Unsent, AllBytes;
    assert Advance(c.queue, 0) == c.queue by { AdvanceNothing(c.queue); }
    if c.queue == [] && op.HandleWrite? && op.r.Sent? {
      AdvanceEmpty(op.r.n);
    }
  }

  lemma AdvanceNothing(q: seq<WriteMeta>)
    ensures Advance(q, 0) == q
  {
  }

  lemma AdvanceEmpty(n: nat)
    ensures Advance([], n) == []
  {
  }

  // ----- runs -----

  ghost predicate CanRun(c: Conn, ops: seq<Op>)
    decreases |ops|
  {
    ops != [] ==> Possible(c, ops[0]) && CanRun(Apply(c, ops[0]), ops[1..])
  }

  ghost function Run(c: Conn, ops: seq<Op>): Conn
    requires CanRun(c, ops)
    decreases |ops|
  {
    if ops == [] then c else Run(Apply(c, ops[0]), ops[1..])
  }

  lemma {:induction false} RunFirst(c: Conn, op: Op, d: Conn, rest: seq<Op>)
    requires Possible(c, op) && d == Apply(c, op) && CanRun(d, rest)
    ensures CanRun(c, [op] + rest) && Run(c, [op] + rest) == Run(d, rest)
  {
    hide Possible, Apply;
    assert ([op] + rest)[1..] == rest;
  }

  lemma RunNothing(c: Conn)
    ensures CanRun(c, []) && Run(c, []) == c
  {
  }

  lemma {:induction false} RunKeepsInv(c: Conn, ops: seq<Op>)
    requires Inv(c) && CanRun(c, ops)
    ensures Inv(Run(c, ops))
    ensures Within(c) && Run(c, ops).live ==> Within(Run(c, ops))
    ensures Listening(c) ==> Listening(Run(c, ops))
    decreases |ops|
  {
    if ops != [] {
      hide Inv, Within, Listening, Possible, Apply;
      var d := Apply(c, ops[0]);
      ApplyKeepsInv(c, ops[0]);
      if Listening(c) {
        ApplyKeepsListening(c, ops[0]);
      }
      if Within(c) {
        QueuedIsNatural(c);
        ApplyKeepsWithin(c, ops[0]);
      }
      if !d.live {
        ClosedStays(d, ops[1..]);
      }
      RunKeepsInv(d, ops[1..]);
    }
  }

  lemma QueuedIsNatural(c: Conn)
    requires Inv(c)
    ensures c.queued >= 0
  {
  }

  lemma {:induction false} ClosedStays(c: Conn, ops: seq<Op>)
    requires CanRun(c, ops) && !c.live
    ensures ops == [] && Run(c, ops) == c
  {
  }
}
