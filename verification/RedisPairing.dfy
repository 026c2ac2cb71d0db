/**
 * One connection of the Redis client with its server: commands go out through the write
 * queue, replies come back through the read buffer, and order alone matches them.
 */
module RedisPairing {
  import opened Common
  import opened Bytes
  import opened WriteQueue
  import opened Resp
  import opened RespStreams
  import opened RespEncoding
  import opened RedisReader
  import opened RedisReplies
  import Net = ConnectionSpec

  /**
   * Promises are numbered as their commands are.  `failed` are the promises that got the
   * write error; `arrived` counts the bytes that reached the server and `cursor` those it
   * has parsed; `understood` and `replies` are what it parsed and answered; `wire` are the
   * bytes of replies on their way.
   */
  datatype Link = Link(
    conn: Net.Conn, commands: seq<seq<seq<byte>>>, reader: Reader, failed: seq<nat>,
    arrived: nat, cursor: nat, understood: seq<Value>, replies: seq<Value>, wire: seq<byte>)

  const FRESH := Link(Net.READING_CONN, [], Reader([], [], [], false), [], 0, 0, [], [], [])

  function Command(args: seq<seq<byte>>): Value {
    Array(Bulks(args))
  }

  datatype Op =
    | Execute(args: seq<seq<byte>>)
    | Handler(op: Net.Op)
    | Arrive(n: nat)
    | Answer(v: Value)
    | Receive(n: nat)

  /** What the server reads next. */
  function NextCommand(l: Link): Outcome
    requires l.arrived <= |l.conn.sent|
  {
    ParseValue(l.conn.sent[..l.arrived], l.cursor)
  }

  function Queued(l: Link, args: seq<seq<byte>>): Net.Op {
    Net.Write([WriteMeta(|l.commands|, Encode(Command(args)), 0)])
  }

  /**
   * The server answers a command once it has read all of it, once and in order; what the
   * client receives in one piece does not end before an element of an array.
   */
  ghost predicate Possible(l: Link, op: Op) {
    match op
    case Execute(args) => WellFormed(Command(args)) && Net.Possible(l.conn, Queued(l, args))
    case Handler(o) => !o.Write? && Net.Possible(l.conn, o)
    case Arrive(n) => l.arrived + n <= |l.conn.sent|
    case Answer(v) => WellFormed(v) && l.arrived <= |l.conn.sent| && NextCommand(l).Ok?
    case Receive(n) =>
      && l.conn.live && 0 < n <= |l.wire| && |l.reader.held| + n <= BUFFER_SIZE
      && |l.reader.resolved| <= |l.replies|
      && CleanCut(l.replies[|l.reader.resolved|..], |l.reader.held| + n)
  }

  /** The callbacks of `execute`: a written command queues its promise, a failed one fails it. */
  function AfterCallbacks(l: Link, conn: Net.Conn): Link
    requires |l.conn.callbacks| <= |conn.callbacks|
  {
    var calls := conn.callbacks[|l.conn.callbacks|..];
    l.(conn := conn,
       reader := l.reader.(promises := l.reader.promises + Reported(calls, true)),
       failed := l.failed + Reported(calls, false))
  }

  ghost function Apply(l: Link, op: Op): Link
    requires Possible(l, op)
  {
    match op
    case Execute(args) => l.(conn := Net.Apply(l.conn, Queued(l, args)), commands := l.commands + [args])
    case Handler(o) =>
      Net.CallbacksGrow(l.conn, o);
      AfterCallbacks(l, Net.Apply(l.conn, o))
    case Arrive(n) => l.(arrived := l.arrived + n)
    case Answer(v) =>
      var command := NextCommand(l);
      l.(cursor := command.pos, understood := l.understood + [command.v],
         replies := l.replies + [v], wire := l.wire + Encode(v))
    case Receive(n) => l.(reader := AfterRead(l.reader, l.wire[..n]), wire := l.wire[n..])
  }

  // ----- the invariant -----

  /** The queue entries are the commands, numbered; whatever is queued has unsent bytes. */
  ghost predicate CommandsOk(l: Link) {
    && |l.conn.accepted| == |l.commands|
    && (forall i :: 0 <= i < |l.commands| ==>
          && WellFormed(Command(l.commands[i]))
          && l.conn.accepted[i].id == i && l.conn.accepted[i].buffer == Encode(Command(l.commands[i])))
  }

  /** A command that is sent to its last byte has been reported. */
  ghost predicate SentIsReported(c: Net.Conn) {
    && Pending(c.queue)
    && (c.completed < |c.accepted| ==> |c.sent| < |AllBytes(c.accepted[..c.completed + 1])|)
  }

  /** The server has read exactly the commands that it has answered. */
  ghost predicate ServerOk(l: Link) {
    && l.arrived <= |l.conn.sent|
    && |l.understood| == |l.replies| <= l.conn.completed <= |l.conn.accepted|
    && |l.understood| <= |l.commands|
    && (forall i :: 0 <= i < |l.understood| ==> l.understood[i] == Command(l.commands[i]))
    && l.cursor == |AllBytes(l.conn.accepted[..|l.replies|])|
  }

  /** The `k`-th reply has resolved the `k`-th promise; the promises wait for the next replies. */
  ghost predicate PromisesOk(l: Link) {
    var m := |l.reader.resolved|;
    && m <= |l.replies| <= l.conn.completed <= |l.conn.accepted|
    && (forall i :: 0 <= i < m ==> l.reader.resolved[i] == Resolution(i, AsRead(l.replies[i])))
    && l.reader.promises == Numbers(m, l.conn.completed)
    && l.failed == (if l.conn.live then [] else Numbers(l.conn.completed, |l.conn.accepted|))
  }

  ghost predicate RepliesOk(l: Link) {
    && |l.reader.resolved| <= |l.replies|
    && AllWellFormed(l.replies)
    && Reassembled(l.reader, l.wire, l.replies[|l.reader.resolved|..])
  }

  ghost predicate Inv(l: Link) {
    Net.Inv(l.conn) && CommandsOk(l) && SentIsReported(l.conn) && ServerOk(l) && PromisesOk(l) && RepliesOk(l)
  }

  // ----- every step keeps it -----

  /** With unsent bytes in every queued buffer, the first one that is not reported lacks bytes. */
  lemma {:induction false} PendingIsUnsent(c: Net.Conn)
    requires Net.BytesOk(c) && Net.CallbacksOk(c) && c.live && Pending(c.queue)
    ensures SentIsReported(c)
  {
    var k := c.completed;
    if k < |c.accepted| {
      var q, ws := c.queue, c.accepted[k..];
      hide AllBytes;
      assert c.accepted == c.accepted[..k + 1] + c.accepted[k + 1..];
      AllBytesAppend(c.accepted[..k + 1], c.accepted[k + 1..]);
      assert ws[1..] == c.accepted[k + 1..];
      Net.UnsentIsShorter(q[1..], ws[1..]);
      UnsentNotShorter(q, ws);
    }
  }

  lemma {:induction false} UnsentNotShorter(q: seq<WriteMeta>, ws: seq<WriteMeta>)
    requires SoundQueue(q) && SameWrites(q, ws) && q != [] && q[0].offset < |q[0].buffer|
    ensures |Unsent(q)| > |AllBytes(ws[1..])|
  {
    FreshSame(q[1..], ws[1..]);
    hide AllBytes;
  }

  lemma {:induction false} FreshSame(q: seq<WriteMeta>, ws: seq<WriteMeta>)
    requires SameWrites(q, ws) && forall i :: 0 <= i < |q| ==> q[i].offset == 0
    ensures Unsent(q) == AllBytes(ws)
  {
    if q != [] {
      assert Rest(q[0]) == ws[0].buffer;
      FreshSame(q[1..], ws[1..]);
    }
  }

  lemma ExecuteKeepsConn(c: Net.Conn, m: WriteMeta)
    requires Net.Inv(c) && SentIsReported(c) && Net.Possible(c, Net.Write([m])) && m.buffer != []
    ensures var d := Net.Apply(c, Net.Write([m])); Net.Inv(d) && SentIsReported(d)
  {
    Net.ApplyKeepsInv(c, Net.Write([m]));
    hide Net.BytesOk, Net.CallbacksOk, Net.LevelsOk, Net.EventsOk, Net.ReportsOk, AllBytes;
    PendingIsUnsent(Net.Apply(c, Net.Write([m])));
  }

  /** A handler leaves the accepted commands alone and reports what it has sent, or fails the rest. */
  lemma {:induction false} HandlerKeepsConn(c: Net.Conn, o: Net.Op)
    requires Net.Inv(c) && SentIsReported(c) && Net.Possible(c, o) && !o.Write?
    ensures var d := Net.Apply(c, o);
      && Net.Inv(d) && SentIsReported(d)
      && d.accepted == c.accepted && c.sent <= d.sent
      && c.completed <= d.completed && (!d.live ==> d.completed == c.completed)
  {
    Net.ApplyKeepsInv(c, o);
    HandlerOnQueue(c, o);
    var d := Net.Apply(c, o);
    hide Net.BytesOk, Net.CallbacksOk, Net.LevelsOk, Net.EventsOk, Net.ReportsOk, Net.Apply, AllBytes;
    if d.live {
      PendingIsUnsent(d);
    }
  }

  lemma {:induction false} HandlerOnQueue(c: Net.Conn, o: Net.Op)
    requires Pending(c.queue) && Net.Possible(c, o) && !o.Write?
    ensures var d := Net.Apply(c, o);
      && d.accepted == c.accepted && c.sent <= d.sent && Pending(d.queue)
      && c.completed <= d.completed && (!d.live ==> d.completed == c.completed && d.sent == c.sent)
  {
    hide Offered, Net.AfterSent, Net.AfterClose, Net.AfterFailAll;
    match o
    case HandleWrite(r) =>
      CloseOnQueue(c);
      if r.Sent? {
        SentOnQueue(c, r.n);
      }
      hide Pending;
    case Close => CloseOnQueue(c);
    case _ =>
  }

  lemma CloseOnQueue(c: Net.Conn)
    requires c.live
    ensures Net.AfterClose(Net.AfterFailAll(c)) == Net.AfterClose(c)
    ensures var d := Net.AfterClose(c);
      d.accepted == c.accepted && d.sent == c.sent && d.queue == [] && d.completed == c.completed && !d.live
  {
    hide Net.Callbacks;
    assert Net.Callbacks([], false) == [] by { NoCallbacks(); }
  }

  lemma NoCallbacks()
    ensures Net.Callbacks([], false) == []
  {
  }

  lemma {:induction false} SentOnQueue(c: Net.Conn, n: nat)
    requires Pending(c.queue) && n <= |Offered(c.queue)|
    ensures var d := Net.AfterSent(c, n);
      d.accepted == c.accepted && c.sent <= d.sent && Pending(d.queue) && c.completed <= d.completed && d.live == c.live
  {
    AdvanceKeepsPending(c.queue, n);
    hide Pending, Advance, Offered, Net.Callbacks, AllBytes, Unsent;
  }

  /** The callbacks of one handler: the next commands, all written, or all the others, failed. */
  lemma {:induction false} FreshCallbacks(c: Net.Conn, d: Net.Conn)
    requires Net.CallbacksOk(c) && Net.CallbacksOk(d) && c.live && c.accepted == d.accepted
    requires c.completed <= d.completed && (!d.live ==> d.completed == c.completed)
    requires forall i :: 0 <= i < |c.accepted| ==> c.accepted[i].id == i
    ensures |c.callbacks| == c.completed <= |d.callbacks|
    ensures |d.callbacks| == if d.live then d.completed else |c.accepted|
    ensures forall i :: c.completed <= i < |d.callbacks| ==> d.callbacks[i] == Net.Callback(i, d.live)
  {
    Net.CallbacksAt(c.accepted[..c.completed], true);
    Net.CallbacksAt(d.accepted[..d.completed], true);
    Net.CallbacksAt(d.accepted[d.completed..], false);
    hide Net.Callbacks;
  }

  lemma {:induction false} ReportedAll(calls: seq<Net.Callback>, a: nat, success: bool)
    requires forall i :: 0 <= i < |calls| ==> calls[i] == Net.Callback(a + i, success)
    ensures Reported(calls, success) == Numbers(a, a + |calls|) && Reported(calls, !success) == []
  {
    if calls != [] {
      ReportedAll(calls[1..], a + 1, success);
    }
  }

  lemma {:induction false} HandlerKeepsPromises(l: Link, o: Net.Op)
    requires Inv(l) && Possible(l, Handler(o))
    ensures PromisesOk(Apply(l, Handler(o)))
  {
    var c, d := l.conn, Net.Apply(l.conn, o);
    HandlerKeepsConn(c, o);
    FreshCallbacks(c, d);
    Net.CallbacksGrow(c, o);
    hide Net.Apply, Net.Inv, Net.Possible, Net.BytesOk, Net.CallbacksOk, SentIsReported, RepliesOk, ServerOk, Reported,
      AfterCallbacks, Encode, Command, WellFormed;
    CallbacksKeepPromises(l, d);
  }

  lemma {:induction false} CallbacksKeepPromises(l: Link, d: Net.Conn)
    requires PromisesOk(l) && l.conn.live && d.accepted == l.conn.accepted
    requires |l.conn.callbacks| == l.conn.completed <= d.completed <= |d.accepted|
    requires |d.callbacks| == if d.live then d.completed else |d.accepted|
    requires !d.live ==> d.completed == l.conn.completed
    requires forall i :: l.conn.completed <= i < |d.callbacks| ==> d.callbacks[i] == Net.Callback(i, d.live)
    ensures PromisesOk(AfterCallbacks(l, d))
  {
    var k := l.conn.completed;
    var calls := d.callbacks[k..];
    ReportedAll(calls, k, d.live);
    NumbersJoin(|l.reader.resolved|, k, d.completed);
    hide Reported, Numbers;
    NothingAdded(l.reader.promises);
    NothingAdded(l.failed);
  }

  lemma {:induction false} HandlerKeepsInv(l: Link, o: Net.Op)
    requires Inv(l) && Possible(l, Handler(o))
    ensures Inv(Apply(l, Handler(o)))
  {
    hide Net.Apply, Net.Inv, Net.Possible, SentIsReported, PromisesOk, Reported, Reassembled, AllWellFormed, Command, AllBytes, NextCommand,
      Encode, WellFormed;
    HandlerKeepsPromises(l, o);
    HandlerKeepsConn(l.conn, o);
    var t := Apply(l, Handler(o));
    SameCommands(l, t);
    PromisesSuffice(t);
    hide CommandsOk;
    SameServer(l, t);
    hide ServerOk;
    SameReplies(l, t);
    hide RepliesOk;
  }

  lemma SameReplies(l: Link, t: Link)
    requires RepliesOk(l) && t.reader.(promises := l.reader.promises) == l.reader
    requires t.wire == l.wire && t.replies == l.replies
    ensures RepliesOk(t)
  {
    hide AllWellFormed, EncodeAll, Whole;
  }

  lemma SameServer(l: Link, t: Link)
    requires ServerOk(l) && t.conn.accepted == l.conn.accepted && l.commands == t.commands
    requires l.conn.sent <= t.conn.sent && l.conn.completed <= t.conn.completed <= |t.conn.accepted|
    requires t.arrived == l.arrived && t.cursor == l.cursor && t.understood == l.understood && t.replies == l.replies
    ensures ServerOk(t)
  {
    hide AllBytes, Command;
  }

  lemma SameCommands(l: Link, t: Link)
    requires CommandsOk(l) && t.conn.accepted == l.conn.accepted && l.commands == t.commands
    ensures CommandsOk(t)
  {
    hide Encode, WellFormed, Command;
  }

  lemma {:induction false} ExecuteKeepsInv(l: Link, args: seq<seq<byte>>)
    requires Inv(l) && Possible(l, Execute(args))
    ensures Inv(Apply(l, Execute(args)))
  {
    var m := WriteMeta(|l.commands|, Encode(Command(args)), 0);
    EncodeIsNotEmpty(Command(args));
    ExecuteKeepsConn(l.conn, m);
    ExecuteKeepsRest(l, args);
    hide *;
  }

  lemma {:induction false} ExecuteKeepsRest(l: Link, args: seq<seq<byte>>)
    requires Inv(l) && Possible(l, Execute(args))
    ensures var t := Apply(l, Execute(args)); CommandsOk(t) && ServerOk(t) && PromisesOk(t) && RepliesOk(t)
  {
    var k := |l.replies|;
    assert (l.conn.accepted + Queued(l, args).ws)[..k] == l.conn.accepted[..k];
    hide Net.Inv, SentIsReported, Encode, AllBytes, Command, WellFormed, AllWellFormed, Reassembled;
  }

  /** The bytes that have reached the server begin the concatenation of all commands. */
  lemma {:induction false} ArrivedIsPrefix(l: Link)
    requires Net.BytesOk(l.conn) && l.arrived <= |l.conn.sent|
    ensures var d := AllBytes(l.conn.accepted); l.arrived <= |d| && l.conn.sent[..l.arrived] == d[..l.arrived]
  {
    hide AllBytes, Unsent, SoundQueue;
  }

  /** The `k`-th command in the stream of all commands. */
  lemma {:induction false} CommandInStream(ws: seq<WriteMeta>, k: nat, v: Value)
    requires k < |ws| && WellFormed(v) && ws[k].buffer == Encode(v)
    ensures var at := |AllBytes(ws[..k])|;
      && ParseValue(AllBytes(ws), at) == Ok(AsRead(v), |AllBytes(ws[..k + 1])|)
      && at < |AllBytes(ws[..k + 1])| <= |AllBytes(ws)|
  {
    var pre, suf := AllBytes(ws[..k]), AllBytes(ws[k + 1..]);
    assert ws == ws[..k + 1] + ws[k + 1..] && ws[..k + 1] == ws[..k] + [ws[k]];
    AllBytesAppend(ws[..k + 1], ws[k + 1..]);
    Snoc(ws[..k], ws[k]);
    EncodeIsNotEmpty(v);
    hide AllBytes, Encode, ParseValue, WellFormed, Unsent, Rest, AsRead;
    ParseOfEncode(pre, v, suf);
  }

  /**
   * The server, which runs the same parser on what has arrived, reads exactly the next
   * command, as soon as all of it is there and not before.
   */
  lemma {:induction false} ServerReadsNext(l: Link)
    requires Net.BytesOk(l.conn) && CommandsOk(l) && ServerOk(l)
    ensures var k := |l.replies|;
      && (NextCommand(l).Ok? <==> k < |l.commands| && |AllBytes(l.conn.accepted[..k + 1])| <= l.arrived)
      && (NextCommand(l).Ok? ==>
            NextCommand(l) == Ok(Command(l.commands[k]), |AllBytes(l.conn.accepted[..k + 1])|))
  {
    var k, ws := |l.replies|, l.conn.accepted;
    var d := AllBytes(ws);
    ArrivedIsPrefix(l);
    hide AllBytes, Encode, WellFormed, BeforeType, Command;
    if k < |l.commands| {
      CommandReadsAsIs(l.commands[k]);
      CommandInStream(ws, k, Command(l.commands[k]));
      if l.cursor <= l.arrived {
        assert Padded(d, l.arrived, 0) == d[..l.arrived];
        hide ParseValue;
        ParseOfPadded(d, l.cursor, l.arrived, 0);
      }
    } else {
      assert ws[..k] == ws;
    }
  }

  lemma {:induction false} AnswerKeepsInv(l: Link, v: Value)
    requires Inv(l) && Possible(l, Answer(v))
    ensures Inv(Apply(l, Answer(v)))
  {
    assert Net.BytesOk(l.conn);
    hide Net.BytesOk, Net.CallbacksOk, Net.LevelsOk, Net.EventsOk, Net.ReportsOk;
    AnswerKeepsReplies(l, v);
    AnswerKeepsServer(l, v);
    hide SentIsReported, RepliesOk, ServerOk, NextCommand, Encode, Command, WellFormed, AllWellFormed;
  }

  lemma {:induction false} AnswerKeepsServer(l: Link, v: Value)
    requires Net.BytesOk(l.conn) && SentIsReported(l.conn) && CommandsOk(l) && ServerOk(l) && Possible(l, Answer(v))
    ensures ServerOk(Apply(l, Answer(v)))
  {
    assert |l.conn.accepted| == |l.commands|;
    var k := |l.replies|;
    ServerReadsNext(l);
    AnswerIsWritten(l.conn, k);
    assert l.arrived <= |l.conn.sent| && k <= l.conn.completed;
    hide Net.BytesOk, NextCommand, AllBytes, Encode, WellFormed, Command, SentIsReported, CommandsOk, ServerOk;
    ServerAfterAnswer(l, Apply(l, Answer(v)), k);
  }

  lemma {:induction false} ServerAfterAnswer(l: Link, t: Link, k: nat)
    requires ServerOk(l) && k == |l.replies| < |l.commands| && k < l.conn.completed
    requires t.conn == l.conn && t.commands == l.commands && t.arrived == l.arrived && |t.replies| == k + 1
    requires t.understood == l.understood + [Command(l.commands[k])]
    requires t.cursor == |AllBytes(l.conn.accepted[..k + 1])|
    ensures ServerOk(t)
  {
    hide AllBytes, Command;
  }

  /** A command that has arrived has been reported as written. */
  lemma {:induction false} AnswerIsWritten(c: Net.Conn, k: nat)
    requires SentIsReported(c) && k <= c.completed <= |c.accepted|
    ensures k < |c.accepted| && |AllBytes(c.accepted[..k + 1])| <= |c.sent| ==> k < c.completed
  {
  }

  lemma {:induction false} AnswerKeepsReplies(l: Link, v: Value)
    requires RepliesOk(l) && Possible(l, Answer(v))
    ensures RepliesOk(Apply(l, Answer(v)))
  {
    var m := |l.reader.resolved|;
    WellFormedOneMore(l.replies, v);
    MoreReplies(l.reader, l.wire, l.replies[m..], v);
    hide NextCommand, Encode, Reassembled, AllWellFormed;
    assert l.replies[m..] + [v] == (l.replies + [v])[m..];
  }

  lemma {:induction false} WellFormedOneMore(rs: seq<Value>, v: Value)
    requires AllWellFormed(rs) && WellFormed(v)
    ensures AllWellFormed(rs + [v])
  {
    hide WellFormed;
  }

  lemma {:induction false} ReceiveKeepsInv(l: Link, n: nat)
    requires Inv(l) && Possible(l, Receive(n))
    ensures Inv(Apply(l, Receive(n)))
  {
    hide Net.Inv, CommandsOk, SentIsReported, AfterRead, RepliesOk, PromisesOk, Command, AllBytes;
    ReceiveKeepsPairs(l, n);
    var t := Apply(l, Receive(n));
    SameCommands(l, t);
    SameServer(l, t);
  }

  lemma {:induction false} ReceiveKeepsPairs(l: Link, n: nat)
    requires RepliesOk(l) && PromisesOk(l) && Possible(l, Receive(n))
    ensures RepliesOk(Apply(l, Receive(n))) && PromisesOk(Apply(l, Receive(n)))
  {
    hide AfterRead, Whole, AllWellFormed, Paired, RepliesOk, PromisesOk, Reassembled;
    var m := |l.reader.resolved|;
    RepliesOkIff(l);
    PromisesSuffice(l);
    ReceiveOnReplies(l.reader, l.wire, l.replies, m, n);
    var w := Whole(l.replies[m..], |l.reader.held| + n);
    var r := AfterRead(l.reader, l.wire[..n]);
    ReceiveKeepsPromises(l, r, w);
    SamePromises(l.(reader := r), Apply(l, Receive(n)));
    RepliesOkIff(Apply(l, Receive(n)));
  }

  lemma PromisesSuffice(l: Link)
    requires PromisesOk(l)
    ensures |l.replies| - |l.reader.resolved| <= |l.reader.promises| && l.conn.completed <= |l.conn.accepted|
  {
  }

  lemma SamePromises(l: Link, t: Link)
    requires PromisesOk(l) && t.(wire := l.wire) == l
    ensures PromisesOk(t)
  {
    hide Numbers;
  }

  lemma {:induction false} ReceiveOnReplies(r: Reader, wire: seq<byte>, replies: seq<Value>, m: nat, n: nat)
    requires m <= |replies| && AllWellFormed(replies) && Reassembled(r, wire, replies[m..])
    requires n <= |wire| && |r.held| + n <= BUFFER_SIZE && |replies| - m <= |r.promises|
    requires CleanCut(replies[m..], |r.held| + n)
    ensures var w := Whole(replies[m..], |r.held| + n);
      var t := AfterRead(r, wire[..n]);
      && w <= |replies| - m
      && t.promises == r.promises[w..]
      && t.resolved == r.resolved + Paired(r.promises[..w], replies[m..][..w])
      && Reassembled(t, wire[n..], replies[m + w..])
  {
    hide *;
    WellFormedRest(replies, m);
    ReceiveReassembles(r, wire, replies[m..], n);
    var w := Whole(replies[m..], |r.held| + n);
    assert replies[m..][w..] == replies[m + w..];
  }

  lemma RepliesOkIff(l: Link)
    ensures var m := |l.reader.resolved|;
      RepliesOk(l) <==> m <= |l.replies| && AllWellFormed(l.replies) && Reassembled(l.reader, l.wire, l.replies[m..])
  {
    hide AllWellFormed, Reassembled;
  }

  lemma {:induction false} ReceiveKeepsPromises(l: Link, r: Reader, w: nat)
    requires PromisesOk(l) && w <= |l.replies| - |l.reader.resolved|
    requires r.promises == l.reader.promises[w..]
    requires r.resolved == l.reader.resolved + Paired(l.reader.promises[..w], l.replies[|l.reader.resolved|..][..w])
    ensures PromisesOk(l.(reader := r)) && |r.resolved| == |l.reader.resolved| + w
  {
    var m := |l.reader.resolved|;
    assert Numbers(m, l.conn.completed)[w..] == Numbers(m + w, l.conn.completed);
  }

  /** Every step keeps the pairing. */
  lemma {:induction false} StepKeepsInv(l: Link, op: Op)
    requires Inv(l) && Possible(l, op)
    ensures Inv(Apply(l, op))
  {
    match op
    case Execute(args) => ExecuteKeepsInv(l, args);
    case Handler(o) => HandlerKeepsInv(l, o);
    case Arrive(n) =>
      hide Net.Inv, NextCommand, AllBytes, Encode, WellFormed, Command, Reassembled, AllWellFormed;
    case Answer(v) => AnswerKeepsInv(l, v);
    case Receive(n) => ReceiveKeepsInv(l, n);
  }

  // ----- runs -----

  ghost predicate CanRun(l: Link, ops: seq<Op>)
    decreases |ops|
  {
    ops != [] ==> Possible(l, ops[0]) && CanRun(Apply(l, ops[0]), ops[1..])
  }

  ghost function Run(l: Link, ops: seq<Op>): Link
    requires CanRun(l, ops)
    decreases |ops|
  {
    if ops == [] then l else Run(Apply(l, ops[0]), ops[1..])
  }

  lemma {:induction false} RunKeepsInv(l: Link, ops: seq<Op>)
    requires Inv(l) && CanRun(l, ops)
    ensures Inv(Run(l, ops))
    decreases |ops|
  {
    hide Inv, Apply, Possible;
    if ops != [] {
      StepKeepsInv(l, ops[0]);
      RunKeepsInv(Apply(l, ops[0]), ops[1..]);
    }
  }

  /** The argument lists of the commands of a run, read off its calls. */
  function Executed(ops: seq<Op>): seq<seq<seq<byte>>> {
    if ops == [] then [] else (if ops[0].Execute? then [ops[0].args] else []) + Executed(ops[1..])
  }

  /** The replies that the server gives in a run, read off its answers. */
  function Answered(ops: seq<Op>): seq<Value> {
    if ops == [] then [] else (if ops[0].Answer? then [ops[0].v] else []) + Answered(ops[1..])
  }

  lemma {:induction false} RunKeepsRecords(l: Link, ops: seq<Op>)
    requires CanRun(l, ops)
    ensures Run(l, ops).commands == l.commands + Executed(ops)
    ensures Run(l, ops).replies == l.replies + Answered(ops)
    decreases |ops|
  {
    if ops == [] {
      NothingAdded(l.commands);
      NothingAdded(l.replies);
    } else {
      var op, t := ops[0], Apply(l, ops[0]);
      StepRecords(l, op);
      hide Apply, Possible;
      RunKeepsRecords(t, ops[1..]);
      Assoc(l.commands, if op.Execute? then [op.args] else [], Executed(ops[1..]));
      Assoc(l.replies, if op.Answer? then [op.v] else [], Answered(ops[1..]));
    }
  }

  lemma StepRecords(l: Link, op: Op)
    requires Possible(l, op)
    ensures Apply(l, op).commands == l.commands + if op.Execute? then [op.args] else []
    ensures Apply(l, op).replies == l.replies + if op.Answer? then [op.v] else []
  {
    NothingAdded(l.commands);
    NothingAdded(l.replies);
    hide Net.Apply, Net.Possible, NextCommand, AfterRead;
  }

  lemma {:induction false} FreshHasInv()
    ensures Inv(FRESH)
  {
    Net.NewHasInv();
    assert FRESH.conn.accepted[..0] == [] && AllBytes([]) == [];
    assert FRESH.replies[0..] == [];
    WholeStep([], 0);
    hide Net.Inv;
  }

  /**
   * The pairing, on every run of a connection, with commands and replies read off its
   * calls: each resolved promise has the server's reply to that promise's own command, as
   * the server read it; every reply that came in found a promise; and no promise has both
   * a value and an error, or two values.
   */
  lemma {:induction false} EveryPromiseHasItsReply(ops: seq<Op>)
    requires CanRun(FRESH, ops)
    ensures var l := Run(FRESH, ops); var commands, replies := Executed(ops), Answered(ops);
      && !l.reader.lost
      && |l.reader.resolved| <= |replies| == |l.understood| <= |commands|
      && (forall i :: 0 <= i < |l.reader.resolved| ==>
            && l.reader.resolved[i] == Resolution(i, AsRead(replies[i]))
            && l.understood[i] == Command(commands[i]))
      && (forall i :: 0 <= i < |l.reader.resolved| ==> i !in l.failed)
      && (forall i, j :: 0 <= i < j < |l.failed| ==> l.failed[i] != l.failed[j])
  {
    FreshHasInv();
    RunKeepsRecords(FRESH, ops);
    NothingAdded(Executed(ops));
    NothingAdded(Answered(ops));
    hide Inv, CanRun, Executed, Answered;
    RunKeepsInv(FRESH, ops);
    var l := Run(FRESH, ops);
    hide Run;
    WhatInvSays(l);
  }

  lemma {:induction false} WhatInvSays(l: Link)
    requires Inv(l)
    ensures !l.reader.lost
    ensures |l.reader.resolved| <= |l.replies| == |l.understood| <= |l.commands|
    ensures forall i :: 0 <= i < |l.reader.resolved| ==>
      l.reader.resolved[i] == Resolution(i, AsRead(l.replies[i])) && l.understood[i] == Command(l.commands[i])
    ensures forall i :: 0 <= i < |l.reader.resolved| ==> i !in l.failed
    ensures forall i, j :: 0 <= i < j < |l.failed| ==> l.failed[i] != l.failed[j]
  {
    hide Net.Inv, SentIsReported, Encode, Command, WellFormed, AllWellFormed, AllBytes, Whole;
  }

  /**
   * While bytes of replies are on the wire, `read` has room for some and the next one can
   * be received, unless the next reply is longer than the buffer; the room never runs out
   * otherwise, which `read` would report as a closed peer.
   */
  lemma {:induction false} ReadHasRoom(l: Link)
    requires Inv(l) && l.conn.live && l.wire != []
    ensures |l.reader.resolved| < |l.replies|
    ensures var next := l.replies[|l.reader.resolved|];
      && (|l.reader.held| >= BUFFER_SIZE ==> |Encode(next)| > BUFFER_SIZE)
      && (|l.reader.held| < BUFFER_SIZE && !next.Array? ==> Possible(l, Receive(1)))
      && (|Encode(next)| <= BUFFER_SIZE ==>
            |l.reader.held| < |Encode(next)| && Possible(l, Receive(|Encode(next)| - |l.reader.held|)))
  {
    assert RepliesOk(l);
    hide Inv, Reassembled, AllWellFormed, CleanCut, Encode, RepliesOk;
    RepliesOkIff(l);
    RoomForNext(l.reader, l.wire, l.replies, |l.reader.resolved|);
  }

  lemma {:induction false} RoomForNext(r: Reader, wire: seq<byte>, replies: seq<Value>, m: nat)
    requires m <= |replies| && AllWellFormed(replies) && Reassembled(r, wire, replies[m..]) && wire != []
    ensures m < |replies|
    ensures |r.held| >= BUFFER_SIZE ==> |Encode(replies[m])| > BUFFER_SIZE
    ensures |r.held| < BUFFER_SIZE && !replies[m].Array? ==> CleanCut(replies[m..], |r.held| + 1)
    ensures var end := |Encode(replies[m])|;
      |r.held| < end <= |r.held| + |wire| && CleanCut(replies[m..], end)
  {
    hide *;
    var rs := replies[m..];
    SomeReplyIsDue(r, wire, rs);
    assert rs[0] == replies[m];
    WellFormedRest(replies, m);
    WholeReplyIsClean(r, wire, rs);
    if |r.held| >= BUFFER_SIZE {
      FullMeansTooLong(r, wire, rs);
    } else if !rs[0].Array? {
      OneMoreByteIsClean(r, wire, rs);
    }
  }

  lemma {:induction false} SomeReplyIsDue(r: Reader, wire: seq<byte>, rs: seq<Value>)
    requires Reassembled(r, wire, rs) && wire != []
    ensures rs != [] && |r.held| < |EncodeAll(rs)|
  {
    assert |r.held + wire| > |r.held|;
    hide Whole, Encode;
  }

  /** The piece that completes the next reply ends cleanly, whatever reply it is. */
  lemma {:induction false} WholeReplyIsClean(r: Reader, wire: seq<byte>, rs: seq<Value>)
    requires AllWellFormed(rs) && Reassembled(r, wire, rs) && wire != [] && rs != []
    ensures var end := |Encode(rs[0])|; |r.held| < end <= |r.held| + |wire| && CleanCut(rs, end)
  {
    var end := |Encode(rs[0])|;
    WholeStep(rs, |r.held|);
    assert |r.held + wire| == |r.held| + |wire|;
    assert |EncodeAll(rs)| == end + |EncodeAll(rs[1..])|;
    WholeStep(rs, end);
    WholeStep(rs[1..], 0);
    assert rs[..1][1..] == [];
    assert |EncodeAll(rs[..1])| == end;
    hide Encode, EncodeAll, Whole, Reassembled, AllWellFormed;
    FlatIsClean(rs, end);
  }

  lemma {:induction false} OneMoreByteIsClean(r: Reader, wire: seq<byte>, rs: seq<Value>)
    requires AllWellFormed(rs) && Reassembled(r, wire, rs) && wire != [] && rs != [] && !rs[0].Array?
    ensures CleanCut(rs, |r.held| + 1)
  {
    SomeReplyIsDue(r, wire, rs);
    var k := |r.held| + 1;
    WholeStep(rs, |r.held|);
    WholeStep(rs, k);
    WholeEnds(rs, k);
    var w := Whole(rs, k);
    if w > 0 {
      AllOfFirst(rs, w);
    }
    hide Encode, EncodeAll, Whole, Reassembled, AllWellFormed;
    FlatIsClean(rs, k);
  }

  /** Once every command is answered and nothing is on the wire, every promise has its value. */
  lemma {:induction false} AllAnsweredAllResolved(l: Link)
    requires Inv(l) && |l.replies| == |l.commands| && l.wire == []
    ensures |l.reader.resolved| == |l.commands| && l.reader.held == [] && l.reader.promises == [] && l.failed == []
  {
    hide Net.Inv, SentIsReported, Encode, Reassembled, AllWellFormed, Command, WellFormed;
    NothingLeft(l.reader, l.replies[|l.reader.resolved|..]);
  }

  // ----- what closing leaves behind -----

  /** Promise `i` has neither a value nor an error. */
  ghost predicate Unsettled(l: Link, i: nat) {
    i !in l.failed && forall k :: 0 <= k < |l.reader.resolved| ==> l.reader.resolved[k].promise != i
  }

  /** The last byte of command `i` has been sent. */
  ghost predicate SentWhole(l: Link, i: nat) {
    i < |l.conn.accepted| && |AllBytes(l.conn.accepted[..i + 1])| <= |l.conn.sent|
  }

  /** The last byte of reply `i` has been received. */
  ghost predicate ReplyReceived(l: Link, i: nat) {
    i < |l.replies| && |EncodeAll(l.replies[..i + 1])| + |l.wire| <= |EncodeAll(l.replies)|
  }

  lemma {:induction false} MoreBytes(ws: seq<WriteMeta>, i: nat, j: nat)
    requires i <= j <= |ws|
    ensures |AllBytes(ws[..i])| <= |AllBytes(ws[..j])|
  {
    assert ws[..j] == ws[..i] + ws[i..j];
    AllBytesAppend(ws[..i], ws[i..j]);
  }

  lemma {:induction false} ReportedIffSent(l: Link, i: nat)
    requires Inv(l) && i < |l.conn.accepted|
    ensures i < l.conn.completed <==> SentWhole(l, i)
  {
    assert SentIsReported(l.conn) && Net.ReportsOk(l.conn);
    hide Inv;
    SentCounts(l.conn, i);
  }

  lemma {:induction false} SentCounts(c: Net.Conn, i: nat)
    requires SentIsReported(c) && Net.ReportsOk(c) && i < |c.accepted|
    ensures i < c.completed <==> |AllBytes(c.accepted[..i + 1])| <= |c.sent|
  {
    var k := c.completed;
    assert |AllBytes(c.accepted[..k])| <= |c.sent|;
    hide AllBytes, Pending;
    if i < k {
      MoreBytes(c.accepted, i + 1, k);
    } else {
      MoreBytes(c.accepted, k + 1, i + 1);
    }
  }

  lemma {:induction false} MoreEncoded(rs: seq<Value>, i: nat, j: nat)
    requires i <= j <= |rs|
    ensures |EncodeAll(rs[..j])| == |EncodeAll(rs[..i])| + |EncodeAll(rs[i..j])|
  {
    hide EncodeAll;
    assert rs[..j] == rs[..i] + rs[i..j];
    EncodeAllAppend(rs[..i], rs[i..j]);
  }

  lemma {:induction false} DeliveredIffReceived(l: Link, i: nat)
    requires Inv(l)
    ensures i < |l.reader.resolved| <==> ReplyReceived(l, i)
  {
    var m, r := |l.reader.resolved|, l.reader;
    var rs := l.replies[m..];
    assert m <= |l.replies| && r.held + l.wire == EncodeAll(rs) && Whole(rs, |r.held|) == 0;
    hide Inv;
    WholeStep(rs, |r.held|);
    MoreEncoded(l.replies, m, |l.replies|);
    assert l.replies[..|l.replies|] == l.replies && l.replies[m..|l.replies|] == rs;
    hide EncodeAll, Encode, Whole;
    if i < m {
      MoreEncoded(l.replies, i + 1, m);
    } else if i < |l.replies| {
      MoreEncoded(l.replies, m, i + 1);
      FirstCounts(l.replies[m..i + 1]);
      assert l.replies[m..i + 1][0] == rs[0];
    }
  }

  lemma FirstCounts(rs: seq<Value>)
    requires rs != []
    ensures |EncodeAll(rs)| >= |Encode(rs[0])|
  {
    hide Encode;
  }

  /**
   * What closing leaves behind, on every run: a promise is left without a value and
   * without an error exactly when its command has been sent to the last byte and the last
   * byte of its reply has not been received.
   */
  lemma {:induction false} AbandonedIff(ops: seq<Op>, i: nat)
    requires CanRun(FRESH, ops) && !Run(FRESH, ops).conn.live && i < |Run(FRESH, ops).commands|
    ensures var l := Run(FRESH, ops);
      Unsettled(l, i) <==> SentWhole(l, i) && !ReplyReceived(l, i)
  {
    FreshHasInv();
    hide Inv, CanRun;
    RunKeepsInv(FRESH, ops);
    var l := Run(FRESH, ops);
    hide Run;
    SettledParts(l, i);
    ReportedIffSent(l, i);
    DeliveredIffReceived(l, i);
  }

  lemma {:induction false} SettledParts(l: Link, i: nat)
    requires Inv(l) && !l.conn.live && i < |l.commands|
    ensures Unsettled(l, i) <==> |l.reader.resolved| <= i < l.conn.completed
    ensures |l.conn.accepted| == |l.commands|
  {
    hide Net.Inv, SentIsReported, Encode, RepliesOk, ServerOk, Command, WellFormed;
    if l.conn.completed <= i {
      assert l.failed[i - l.conn.completed] == i;
    } else if i < |l.reader.resolved| {
      assert l.reader.resolved[i].promise == i;
    }
  }

  lemma {:induction false} RunFirst(l: Link, op: Op, t: Link, rest: seq<Op>)
    requires Possible(l, op) && t == Apply(l, op) && CanRun(t, rest)
    ensures CanRun(l, [op] + rest) && Run(l, [op] + rest) == Run(t, rest)
  {
    hide Possible, Apply;
    assert ([op] + rest)[1..] == rest;
  }

  /** One command is written and the connection is closed before the reply comes. */
  function AbandonRun(args: seq<seq<byte>>): seq<Op> {
    [Execute(args)] + ([Handler(Net.HandleWrite(Net.Sent(|Encode(Command(args))|)))] + ([Handler(Net.Close)] + []))
  }

  lemma {:induction false} WholeWrite(cmd: seq<byte>)
    requires cmd != []
    ensures var m := WriteMeta(0, cmd, 0);
      && AllBytes([m]) == cmd && Offered([m]) == cmd && Advance([m], |cmd|) == []
      && Net.Callbacks([m][..1], true) == [Net.Callback(0, true)]
  {
    var m := WriteMeta(0, cmd, 0);
    assert [m][1..] == [] && [m][..1] == [m] && Rest(m) == cmd;
    assert Unsent([m]) == cmd + [] && AllBytes([m]) == cmd + [];
  }

  lemma {:induction false} CommandIsAbandoned(args: seq<seq<byte>>)
    requires WellFormed(Command(args)) && |Encode(Command(args))| <= Net.INT_MAX
    ensures CanRun(FRESH, AbandonRun(args))
    ensures var l := Run(FRESH, AbandonRun(args));
      !l.conn.live && l.commands == [args] && Unsettled(l, 0)
  {
    var cmd := Encode(Command(args));
    EncodeIsNotEmpty(Command(args));
    WholeWrite(cmd);
    hide Encode, Command, WellFormed, AllBytes, Offered, Advance, Net.Callbacks;
    var n := |cmd|;
    var l1 := Apply(FRESH, Execute(args));
    assert l1.conn.queue == [WriteMeta(0, cmd, 0)] && l1.conn.live && l1.conn.callbacks == [];
    var write := Handler(Net.HandleWrite(Net.Sent(n)));
    var l2 := Apply(l1, write);
    assert l2.conn == Net.AfterSent(l1.conn, n) && l2.conn.queue == [] && l2.conn.live;
    assert l2.conn.callbacks == [] + [Net.Callback(0, true)];
    assert l2.commands == [args] && l2.reader.resolved == [];
    ReportedOne();
    assert l2.failed == [];
    var l3 := Apply(l2, Handler(Net.Close));
    assert !l3.conn.live && l3.conn.callbacks == l2.conn.callbacks;
    assert l3.conn.callbacks[|l2.conn.callbacks|..] == [];
    assert l3.failed == [];
    hide Apply, Possible, Unsettled;
    assert CanRun(l3, []) && Run(l3, []) == l3;
    RunFirst(l2, Handler(Net.Close), l3, []);
    RunFirst(l1, write, l2, [Handler(Net.Close)] + []);
    RunFirst(FRESH, Execute(args), l1, [write] + ([Handler(Net.Close)] + []));
    NothingSettled(l3);
  }

  lemma ReportedOne()
    ensures var calls := [Net.Callback(0, true)];
      [Net.Callback(0, true)][0..] == calls && Reported(calls, true) == [0] && Reported(calls, false) == []
  {
    assert [Net.Callback(0, true)][1..] == [];
  }

  lemma NothingSettled(l: Link)
    requires l.reader.resolved == [] && l.failed == []
    ensures Unsettled(l, 0)
  {
  }
}
