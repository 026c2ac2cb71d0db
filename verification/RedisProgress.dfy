/** From every reachable state with an open connection every command can get its reply. */
module RedisProgress {
  import opened Bytes
  import opened Common
  import opened WriteQueue
  import opened Resp
  import opened RespEncoding
  import opened RedisReader
  import opened RedisReplies
  import opened RedisPairing
  import opened Draining
  import Net = ConnectionSpec

  /** A run without new commands. */
  ghost predicate Leads(l: Link, ops: seq<Op>, t: Link) {
    CanRun(l, ops) && Run(l, ops) == t && forall i :: 0 <= i < |ops| ==> !ops[i].Execute?
  }

  lemma {:induction false} LeadsOn(l: Link, op: Op, t: Link, rest: seq<Op>, u: Link)
    requires Possible(l, op) && !op.Execute? && t == Apply(l, op) && Leads(t, rest, u)
    ensures Leads(l, [op] + rest, u)
  {
    hide Possible, Apply;
    RunFirst(l, op, t, rest);
  }

  /** The connection is open, and the replies on their way fit in the read buffer. */
  ghost predicate Up(l: Link) {
    && Inv(l) && l.conn.live
    && forall i :: |l.reader.resolved| <= i < |l.replies| ==>
         |Encode(l.replies[i])| <= BUFFER_SIZE
  }

  lemma {:induction false} SendStep(l: Link)
    requires Up(l) && l.conn.queue != []
    ensures var op := Handler(Net.HandleWrite(Net.Sent(|Offered(l.conn.queue)|)));
      && Possible(l, op) && Up(Apply(l, op))
      && Apply(l, op).commands == l.commands && |Unsent(Apply(l, op).conn.queue)| < |Unsent(l.conn.queue)|
  {
    assert Pending(l.conn.queue) && Net.Inv(l.conn);
    var o := Net.HandleWrite(Net.Sent(|Offered(l.conn.queue)|));
    hide Inv, Net.Inv, Net.Possible, Net.Apply, Offered, Unsent, Encode, Pending;
    PendingDrains(l.conn.queue);
    SendAllOffered(l.conn);
    hide Drainable;
    HandlerFields(l, o);
    StepKeepsInv(l, Handler(o));
    hide Apply;
  }

  lemma PendingDrains(q: seq<WriteMeta>)
    requires Pending(q)
    ensures Drainable(q)
  {
    assert forall i :: 0 <= i < |q| ==> !Blank(q, i);
    NoBlanksDrain(q);
  }

  lemma HandlerFields(l: Link, o: Net.Op)
    requires Possible(l, Handler(o))
    ensures var t := Apply(l, Handler(o));
      && t.conn == Net.Apply(l.conn, o) && t.commands == l.commands && t.replies == l.replies
      && t.reader.resolved == l.reader.resolved
  {
    hide Net.Possible, Net.Apply, Reported;
  }

  /** What is sent arrives. */
  lemma {:induction false} ArriveStep(l: Link)
    requires Up(l) && l.arrived < |l.conn.sent|
    ensures var op := Arrive(|l.conn.sent| - l.arrived);
      Possible(l, op) && Up(Apply(l, op)) && Apply(l, op) == l.(arrived := |l.conn.sent|)
  {
    hide Inv, Encode;
    StepKeepsInv(l, Arrive(|l.conn.sent| - l.arrived));
  }

  /** With everything sent and arrived the server reads the next command, and may answer null. */
  lemma {:induction false} AnswerStep(l: Link)
    requires Up(l) && l.conn.queue == [] && l.arrived >= |l.conn.sent| && |l.replies| < |l.commands|
    ensures Possible(l, Answer(Null)) && Up(Apply(l, Answer(Null)))
    ensures var t := Apply(l, Answer(Null));
      t.conn == l.conn && t.arrived == l.arrived && t.commands == l.commands && |t.replies| == |l.replies| + 1
  {
    AllSent(l);
    assert Net.BytesOk(l.conn) && CommandsOk(l) && ServerOk(l);
    ServerReadsNext(l);
    var k := |l.replies|;
    MoreBytes(l.conn.accepted, k + 1, |l.conn.accepted|);
    assert l.conn.accepted[..|l.conn.accepted|] == l.conn.accepted;
    NullIsShort();
    hide Inv, Net.BytesOk, CommandsOk, ServerOk, NextCommand, Encode, AllBytes;
    assert l.arrived <= |l.conn.sent| by { ArrivedFits(l); }
    StepKeepsInv(l, Answer(Null));
  }

  lemma ArrivedFits(l: Link)
    requires Inv(l)
    ensures l.arrived <= |l.conn.sent| && |l.conn.accepted| == |l.commands|
  {
    hide Net.Inv, SentIsReported, PromisesOk, RepliesOk, Encode, WellFormed, Command;
  }

  lemma {:induction false} AllSent(l: Link)
    requires Inv(l) && l.conn.live && l.conn.queue == []
    ensures l.conn.sent == AllBytes(l.conn.accepted) && |l.conn.accepted| == |l.commands|
  {
    ArrivedFits(l);
    assert Net.BytesOk(l.conn);
    assert Unsent([]) == [];
    NothingAdded(l.conn.sent);
    hide AllBytes, SoundQueue;
  }

  lemma NullIsShort()
    ensures |Encode(Null)| == 5 && WellFormed(Null)
  {
    assert Encode(Null) == [36, 45, 49, 13, 10];
  }

  /** What the next reply lacks. */
  function Missing(l: Link): nat
    requires Inv(l) && l.conn.live && l.wire != []
  {
    ReadHasRoom(l);
    var size := |Encode(l.replies[|l.reader.resolved|])|;
    if size > |l.reader.held| then size - |l.reader.held| else 0
  }

  /** The next reply is received whole. */
  lemma {:induction false} ReceiveStep(l: Link)
    requires Up(l) && l.wire != []
    ensures var op := Receive(Missing(l)); Possible(l, op) && Up(Apply(l, op))
    ensures var t := Apply(l, Receive(Missing(l)));
      t.conn == l.conn && t.arrived == l.arrived && t.commands == l.commands && t.replies == l.replies && |t.wire| < |l.wire|
  {
    ReadHasRoom(l);
    var n := Missing(l);
    assert Possible(l, Receive(n));
    StepKeepsInv(l, Receive(n));
    ResolvedGrows(l, n);
    hide Inv, Encode, AfterRead, CleanCut, Missing;
  }

  lemma {:induction false} ResolvedGrows(l: Link, n: nat)
    requires Inv(l) && Possible(l, Receive(n))
    ensures |l.reader.resolved| <= |Apply(l, Receive(n)).reader.resolved|
  {
    hide Inv, ReadFrom;
  }

  /**
   * Progress: from every reachable state with an open connection there is a run without
   * new commands after which every promise has its value and nothing is on its way.
   */
  lemma {:induction false} EveryCommandCanBeAnswered(l: Link) returns (ops: seq<Op>, t: Link)
    requires Up(l)
    ensures Leads(l, ops, t) && Inv(t) && t.commands == l.commands
    ensures |t.reader.resolved| == |t.commands| && t.reader.promises == [] && t.failed == [] && t.wire == []
    decreases |Unsent(l.conn.queue)|, |l.conn.sent| - l.arrived, |l.commands| - |l.replies|, |l.wire|
  {
    var op: Op;
    ArrivedFits(l);
    RepliesFit(l);
    if l.conn.queue != [] {
      op := Handler(Net.HandleWrite(Net.Sent(|Offered(l.conn.queue)|)));
      SendStep(l);
    } else if l.arrived < |l.conn.sent| {
      op := Arrive(|l.conn.sent| - l.arrived);
      ArriveStep(l);
    } else if |l.replies| < |l.commands| {
      op := Answer(Null);
      AnswerStep(l);
    } else if l.wire != [] {
      op := Receive(Missing(l));
      ReceiveStep(l);
    } else {
      AllAnsweredAllResolved(l);
      ops, t := [], l;
      return;
    }
    var n := Apply(l, op);
    ArrivedFits(n);
    RepliesFit(n);
    hide Up, Inv, Possible, Apply, Leads, Unsent;
    var rest;
    rest, t := EveryCommandCanBeAnswered(n);
    LeadsOn(l, op, n, rest, t);
    ops := [op] + rest;
  }

  lemma RepliesFit(l: Link)
    requires Inv(l)
    ensures |l.replies| <= |l.commands|
  {
    hide Net.Inv, SentIsReported, PromisesOk, RepliesOk, Encode, WellFormed, Command;
  }
}
