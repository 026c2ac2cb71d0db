/**
 * One client of the RPC server from the first byte read to the last byte written: the
 * read callback, the pool's workers, the posted writes and the connection.
 */
module RpcServer {
  import opened Common
  import opened Bytes
  import opened RpcFrame
  import opened RpcAutomaton
  import opened RpcStreams
  import opened RpcResponse
  import opened WriteQueue
  import Net = ConnectionSpec

  const ERR_BAD_REQUEST: byte := 1
  const ERR_BAD_INTERNAL: byte := 3
  const ERR_UNKNOWN_FUNCTION: byte := 100
  const ERR_UNKNOWN_PARAM: byte := 101
  const ERR_UNKNOWN_RESPONSE: byte := 102

  /** What a registered handler does: return a body or throw. */
  datatype Handled = Returned(body: seq<byte>) | ThrewBadParam | ThrewBadResponse | ThrewOther

  type FuncKey = (seq<byte>, seq<byte>)

  /** The frame that answers one parse result, `handled` being what its handler does if it has one. */
  function Reply(handlers: set<FuncKey>, e: Event, handled: Handled): Frame {
    match e
    case Error => ErrorFrame(0, ERR_BAD_REQUEST)
    case Complete(m) =>
      if (m.service, m.func) !in handlers then ErrorFrame(m.id, ERR_UNKNOWN_FUNCTION)
      else
        match handled
        case Returned(body) => ResponseFrame(m.id, body)
        case ThrewBadParam => ErrorFrame(m.id, ERR_UNKNOWN_PARAM)
        case ThrewBadResponse => ErrorFrame(m.id, ERR_UNKNOWN_RESPONSE)
        case ThrewOther => ErrorFrame(m.id, ERR_BAD_INTERNAL)
  }

  /**
   * The response that a parse result deserves, field by field: the body of a handler that
   * returned, under the request's id, or an error frame with the code of what went wrong.
   */
  ghost predicate Responds(handlers: set<FuncKey>, e: Event, handled: Handled, f: Frame) {
    match e
    case Error => f.kind == 3 && f.id == 0 && f.body == [] && f.extra == 1
    case Complete(m) =>
      && f.id == m.id
      && if (m.service, m.func) !in handlers then f.kind == 3 && f.body == [] && f.extra == 100
         else if handled.Returned? then f.kind == 2 && f.body == handled.body && f.extra == 0
         else
           && f.kind == 3 && f.body == []
           && f.extra == if handled.ThrewBadParam? then 101 else if handled.ThrewBadResponse? then 102 else 3
  }

  /** Id and body fit their fields. */
  ghost predicate FitsFrame(e: Event, handled: Handled) {
    && (e.Complete? ==> e.m.id < Pow256(8))
    && (handled.Returned? ==> |handled.body| < Pow256(4))
  }

  /** What the client decodes from the bytes of a reply, whatever follows them. */
  lemma {:induction false} ReplyDecodes(handlers: set<FuncKey>, e: Event, handled: Handled, more: seq<byte>)
    requires FitsFrame(e, handled)
    ensures var (frame, rest) := TryParse(FrameBytes(Reply(handlers, e, handled)) + more);
      frame.Some? && Responds(handlers, e, handled, frame.value) && rest == more
  {
    Widths();
    var f := Reply(handlers, e, handled);
    assert f.Encodable() && Responds(handlers, e, handled, f);
    hide TryParse, FrameBytes, Reply, Responds;
    TryParseWhole(f, more);
  }

  /**
   * `dispatch`, up to the write of its response: the client decodes from its bytes exactly
   * the response that the parse result deserves.
   */
  method Dispatch(handlers: set<FuncKey>, context: Event, handled: Handled) returns (response: seq<byte>)
    ensures response == FrameBytes(Reply(handlers, context, handled))
    ensures FitsFrame(context, handled) ==>
      var (frame, rest) := TryParse(response);
      frame.Some? && Responds(handlers, context, handled, frame.value) && rest == []
  {
    response := BuildReply(handlers, context, handled);
    hide FrameBytes, TryParse, Reply, Responds, FitsFrame;
    if FitsFrame(context, handled) {
      ReplyDecodes(handlers, context, handled, []);
      NothingAdded(response);
    }
  }

  method BuildReply(handlers: set<FuncKey>, context: Event, handled: Handled) returns (response: seq<byte>)
    ensures response == FrameBytes(Reply(handlers, context, handled))
  {
    hide FrameBytes;
    match context
    case Error =>
      response := BuildErrorResponse(0, ERR_BAD_REQUEST);
    case Complete(m) =>
      if (m.service, m.func) in handlers {
        match handled
        case Returned(res) => response := BuildResponse(res, m.id);
        case ThrewBadParam => response := BuildErrorResponse(m.id, ERR_UNKNOWN_PARAM);
        case ThrewBadResponse => response := BuildErrorResponse(m.id, ERR_UNKNOWN_RESPONSE);
        case ThrewOther => response := BuildErrorResponse(m.id, ERR_BAD_INTERNAL);
      } else {
        response := BuildErrorResponse(m.id, ERR_UNKNOWN_FUNCTION);
      }
  }

  /** A response and the number of the parse result that it answers. */
  datatype Answer = Answer(request: nat, frame: Frame)

  /**
   * `received` is what the read callback was given so far and `events` what it put into
   * the pool; `tasks`, `working`, `posted` and `answered` hold their numbers.
   */
  datatype State = State(
    handlers: set<FuncKey>, received: seq<byte>, context: Snapshot, events: seq<Event>,
    tasks: seq<nat>, working: seq<Option<nat>>, posted: seq<Answer>, answered: seq<Answer>, conn: Net.Conn)

  ghost predicate Init(s: State) {
    && s.received == [] && s.context == FRESH && s.events == []
    && s.tasks == [] && s.posted == [] && s.answered == [] && s.conn == Net.READING_CONN
    && (forall w :: 0 <= w < |s.working| ==> s.working[w] == None)
  }

  /**
   * The loop reads a chunk, runs a posted write or another handler; a worker takes a task
   * or finishes the one in hand and posts its write.
   */
  datatype Action =
    | Read(chunk: seq<byte>)
    | Take(w: nat)
    | Finish(w: nat, handled: Handled)
    | RunPosted
    | Handler(op: Net.Op)

  function Queued(s: State, a: Answer): Net.Op {
    Net.Write([WriteMeta(|s.answered|, FrameBytes(a.frame), 0)])
  }

  ghost predicate Possible(s: State, a: Action) {
    match a
    case Read(_) => s.conn.live && Valid(s.context)
    case Take(w) => w < |s.working| && s.working[w] == None && s.tasks != []
    case Finish(w, _) => w < |s.working| && s.working[w].Some? && s.working[w].value < |s.events|
    case RunPosted => s.posted != [] && Net.Possible(s.conn, Queued(s, s.posted[0]))
    case Handler(op) => !op.Write? && Net.Possible(s.conn, op)
  }

  ghost function Next(s: State, a: Action): State
    requires Possible(s, a)
  {
    match a
    case Read(chunk) =>
      var o := Run(s.context, chunk);
      s.(received := s.received + chunk, context := o.next, events := s.events + o.events,
         tasks := s.tasks + Numbers(|s.events|, |s.events| + |o.events|))
    case Take(w) => s.(tasks := s.tasks[1..], working := s.working[w := Some(s.tasks[0])])
    case Finish(w, handled) =>
      var request := s.working[w].value;
      s.(working := s.working[w := None],
         posted := s.posted + [Answer(request, Reply(s.handlers, s.events[request], handled))])
    case RunPosted =>
      s.(posted := s.posted[1..], answered := s.answered + [s.posted[0]],
         conn := Net.Apply(s.conn, Queued(s, s.posted[0])))
    case Handler(op) => s.(conn := Net.Apply(s.conn, op))
  }

  // ----- the invariant -----

  function Held(o: Option<nat>): multiset<nat> {
    if o.Some? then multiset{o.value} else multiset{}
  }

  function InHand(ws: seq<Option<nat>>): multiset<nat> {
    if ws == [] then multiset{} else Held(ws[0]) + InHand(ws[1..])
  }

  function Asked(answers: seq<Answer>): (r: seq<nat>)
    ensures |r| == |answers|
  {
    seq(|answers|, i requires 0 <= i < |answers| => answers[i].request)
  }

  function Frames(answers: seq<Answer>): (r: seq<Frame>)
    ensures |r| == |answers|
  {
    seq(|answers|, i requires 0 <= i < |answers| => answers[i].frame)
  }

  /** The parse results are those of the one-byte automaton on everything received. */
  ghost predicate Parsed(s: State) {
    RpcAutomaton.Valid(FRESH) && Run(FRESH, s.received) == Outcome(s.context, s.events)
  }

  /** Every parse result is in exactly one place. */
  ghost predicate Once(s: State) {
    multiset(s.tasks) + InHand(s.working) + multiset(Asked(s.posted)) + multiset(Asked(s.answered))
    == multiset(Numbers(0, |s.events|))
  }

  ghost predicate Answers(s: State, a: Answer) {
    a.request < |s.events| && exists h :: a.frame == Reply(s.handlers, s.events[a.request], h)
  }

  ghost predicate Truthful(s: State) {
    && (forall a :: a in s.posted ==> Answers(s, a))
    && (forall a :: a in s.answered ==> Answers(s, a))
  }

  /** What the connection has accepted are the responses, whole and in order. */
  ghost predicate Written(s: State) {
    AllBytes(s.conn.accepted) == FramesBytes(Frames(s.answered))
  }

  ghost predicate Inv(s: State) {
    Parsed(s) && Once(s) && Truthful(s) && Written(s) && Net.Inv(s.conn)
  }

  // ----- every step keeps it -----

  lemma {:induction false} InHandUpdate(ws: seq<Option<nat>>, w: nat, o: Option<nat>)
    requires w < |ws|
    ensures Held(ws[w]) <= InHand(ws)
    ensures InHand(ws[w := o]) == InHand(ws) - Held(ws[w]) + Held(o)
  {
    hide Held;
    if w == 0 {
      assert ws[0 := o][1..] == ws[1..];
    } else {
      assert ws[w := o][1..] == ws[1..][w - 1 := o];
      InHandUpdate(ws[1..], w - 1, o);
    }
  }

  lemma {:induction false} NobodyWorking(ws: seq<Option<nat>>)
    requires forall w :: 0 <= w < |ws| ==> ws[w] == None
    ensures InHand(ws) == multiset{}
  {
    if ws != [] {
      NobodyWorking(ws[1..]);
    }
  }

  lemma FirstOf(q: seq<nat>)
    requires q != []
    ensures multiset(q) == multiset{q[0]} + multiset(q[1..])
  {
    assert q == [q[0]] + q[1..];
  }

  lemma AskedParts(q: seq<Answer>, a: Answer)
    ensures Asked(q + [a]) == Asked(q) + [a.request]
    ensures q != [] ==> Asked(q)[0] == q[0].request && Asked(q)[1..] == Asked(q[1..])
  {
  }

  lemma {:induction false} ReadKeepsInv(s: State, chunk: seq<byte>)
    requires Inv(s) && Possible(s, Read(chunk))
    ensures Inv(Next(s, Read(chunk)))
  {
    hide Run, RpcAutomaton.Valid, Net.Inv, Written, InHand, Asked, Numbers, Reply;
    RunAppend(FRESH, s.received, chunk);
    var k := |Run(s.context, chunk).events|;
    NumbersJoin(0, |s.events|, |s.events| + k);
    var t := Next(s, Read(chunk));
    assert Truthful(t) by {
      forall a | Answers(s, a)
        ensures Answers(t, a)
      {
        AnswersElsewhere(s, t, a);
      }
    }
    assert Written(t) by { WrittenElsewhere(s, t); }
  }

  lemma WrittenElsewhere(s: State, t: State)
    requires Written(s) && t.answered == s.answered && t.conn.accepted == s.conn.accepted
    ensures Written(t)
  {
  }

  lemma TakeKeepsOnce(s: State, w: nat)
    requires Once(s) && Possible(s, Take(w))
    ensures Once(Next(s, Take(w)))
  {
    hide InHand, Asked, Numbers;
    InHandUpdate(s.working, w, Some(s.tasks[0]));
    FirstOf(s.tasks);
  }

  lemma FinishKeepsOnce(s: State, w: nat, handled: Handled)
    requires Once(s) && Possible(s, Finish(w, handled))
    ensures Once(Next(s, Finish(w, handled)))
  {
    hide InHand, Asked, Numbers, Reply;
    InHandUpdate(s.working, w, None);
    AskedParts(s.posted, Answer(s.working[w].value, Reply(s.handlers, s.events[s.working[w].value], handled)));
  }

  lemma RunPostedKeepsOnce(s: State)
    requires Once(s) && Possible(s, RunPosted)
    ensures Once(Next(s, RunPosted))
  {
    hide InHand, Asked, Numbers, Net.Apply, Net.Possible;
    AskedParts(s.posted, s.posted[0]);
    AskedParts(s.answered, s.posted[0]);
    FirstOf(Asked(s.posted));
  }

  lemma {:induction false} RunPostedKeepsWritten(s: State)
    requires Written(s) && Possible(s, RunPosted)
    ensures Written(Next(s, RunPosted))
  {
    hide Asked, FrameBytes;
    var a := s.posted[0];
    var m := WriteMeta(|s.answered|, FrameBytes(a.frame), 0);
    Snoc(s.conn.accepted, m);
    hide AllBytes;
    assert Frames(s.answered + [a]) == Frames(s.answered) + [a.frame];
    FramesBytesAppend(Frames(s.answered), [a.frame]);
    assert [a.frame][1..] == [] && FramesBytes([a.frame]) == FrameBytes(a.frame) + FramesBytes([]);
    assert FramesBytes([a.frame]) == FrameBytes(a.frame);
  }

  lemma AnswersElsewhere(s: State, t: State, a: Answer)
    requires Answers(s, a) && t.handlers == s.handlers && s.events <= t.events
    ensures Answers(t, a)
  {
    var h :| a.frame == Reply(s.handlers, s.events[a.request], h);
    assert a.frame == Reply(t.handlers, t.events[a.request], h);
  }

  lemma RunPostedKeepsTruthful(s: State)
    requires Truthful(s) && Possible(s, RunPosted)
    ensures Truthful(Next(s, RunPosted))
  {
    var t := Next(s, RunPosted);
    hide Net.Apply, Net.Possible, Reply;
    forall a | Answers(s, a)
      ensures Answers(t, a)
    {
      AnswersElsewhere(s, t, a);
    }
    assert s.posted[0] in s.posted;
  }

  lemma HandlerKeepsAccepted(c: Net.Conn, op: Net.Op)
    requires !op.Write? && Net.Possible(c, op)
    ensures Net.Apply(c, op).accepted == c.accepted
  {
    match op
    case HandleWrite(r) => hide Advance, Offered, Net.Callbacks, AllBytes, Unsent, Net.DrainedEpoll;
    case _ => hide Advance, Offered, Net.Callbacks, AllBytes, Unsent;
  }

  /** Every step of the loop and of the workers keeps the invariant. */
  lemma {:induction false} StepKeepsInv(s: State, a: Action)
    requires Inv(s) && Possible(s, a)
    ensures Inv(Next(s, a))
  {
    hide Run, RpcAutomaton.Valid, Net.Inv, Net.Possible, Net.Apply, Written, Once, InHand, Asked, Reply;
    match a
    case Read(chunk) => ReadKeepsInv(s, chunk);
    case Take(w) =>
      TakeKeepsOnce(s, w);
      WrittenElsewhere(s, Next(s, a));
    case Finish(w, handled) =>
      FinishKeepsOnce(s, w, handled);
      WrittenElsewhere(s, Next(s, a));
    case RunPosted =>
      RunPostedKeepsOnce(s);
      RunPostedKeepsWritten(s);
      Net.ApplyKeepsInv(s.conn, Queued(s, s.posted[0]));
      RunPostedKeepsTruthful(s);
    case Handler(op) =>
      HandlerKeepsAccepted(s.conn, op);
      WrittenElsewhere(s, Next(s, a));
      Net.ApplyKeepsInv(s.conn, op);
      OnceElsewhere(s, Next(s, a));
  }

  lemma OnceElsewhere(s: State, t: State)
    requires Once(s) && t.(conn := s.conn) == s
    ensures Once(t)
  {
  }

  // ----- runs -----

  ghost predicate CanRun(s: State, actions: seq<Action>)
    decreases |actions|
  {
    actions != [] ==> Possible(s, actions[0]) && CanRun(Next(s, actions[0]), actions[1..])
  }

  ghost function RunOf(s: State, actions: seq<Action>): State
    requires CanRun(s, actions)
    decreases |actions|
  {
    if actions == [] then s else RunOf(Next(s, actions[0]), actions[1..])
  }

  lemma {:induction false} InitHasInv(s: State)
    requires Init(s)
    ensures Inv(s)
  {
    SobIsValid();
    NobodyWorking(s.working);
    Net.NewHasInv();
    hide Net.Inv, RpcAutomaton.Valid, InHand, Step;
  }

  lemma {:induction false} RunKeepsInv(s: State, actions: seq<Action>)
    requires Inv(s) && CanRun(s, actions)
    ensures Inv(RunOf(s, actions))
    decreases |actions|
  {
    hide Inv, Next, Possible;
    if actions != [] {
      StepKeepsInv(s, actions[0]);
      RunKeepsInv(Next(s, actions[0]), actions[1..]);
    }
  }

  // ----- what the invariant is for -----

  /** At every moment the bytes sent begin the concatenation of whole response frames. */
  lemma {:induction false} SentIsWholeFrames(s: State)
    requires Inv(s)
    ensures s.conn.sent <= FramesBytes(Frames(s.answered))
    ensures s.conn.live && s.conn.queue == [] ==> s.conn.sent == FramesBytes(Frames(s.answered))
  {
    hide AllBytes, Parsed, Once, Truthful, Net.CallbacksOk, Net.LevelsOk, Net.EventsOk, Net.ReportsOk, SoundQueue;
    assert Unsent([]) == [];
    assert s.conn.sent + [] == s.conn.sent;
  }

  /** Nothing is answered twice, whatever the workers' schedule. */
  lemma {:induction false} NothingTwice(s: State, i: nat, j: nat)
    requires Once(s) && i < j < |s.answered|
    ensures s.answered[i].request != s.answered[j].request
  {
    var asked := Asked(s.answered);
    var x := asked[i];
    if asked[j] == x {
      TwoOf(asked, i, j);
      OneOf(0, |s.events|, x);
      hide InHand, Numbers, Asked;
    }
  }

  lemma {:induction false} TwoOf(q: seq<nat>, i: nat, j: nat)
    requires i < j < |q| && q[i] == q[j]
    ensures multiset(q)[q[i]] >= 2
  {
    assert q == q[..i] + [q[i]] + q[i + 1..j] + [q[j]] + q[j + 1..];
  }

  lemma {:induction false} OneOf(a: nat, b: nat, x: nat)
    requires a <= b
    ensures multiset(Numbers(a, b))[x] == if a <= x < b then 1 else 0
    decreases b - a
  {
    if a < b {
      OneOf(a, b - 1, x);
      assert Numbers(a, b) == Numbers(a, b - 1) + [b - 1];
    } else {
      assert Numbers(a, b) == [];
    }
  }

  ghost predicate Idle(s: State) {
    s.tasks == [] && s.posted == [] && forall w :: 0 <= w < |s.working| ==> s.working[w] == None
  }

  /** Once pool and loop are idle every parse result has its answer. */
  lemma {:induction false} NothingForgotten(s: State, k: nat) returns (j: nat)
    requires Inv(s) && Idle(s) && k < |s.events|
    ensures |s.answered| == |s.events|
    ensures j < |s.answered| && s.answered[j].request == k && Answers(s, s.answered[j])
  {
    NobodyWorking(s.working);
    hide InHand, Reply, Net.Inv, Parsed, Written, Answers;
    assert Asked([]) == [];
    var asked := Asked(s.answered);
    assert multiset(asked) == multiset(Numbers(0, |s.events|));
    assert |multiset(asked)| == |multiset(Numbers(0, |s.events|))|;
    OneOf(0, |s.events|, k);
    hide Numbers;
    assert k in multiset(asked);
    j :| 0 <= j < |asked| && asked[j] == k;
    assert s.answered[j] in s.answered;
  }

  lemma {:induction false} CompletionsAt(ms: seq<Message>)
    ensures |Completions(ms)| == |ms|
    ensures forall i :: 0 <= i < |ms| ==> Completions(ms)[i] == Complete(ms[i])
  {
    if ms != [] {
      CompletionsAt(ms[1..]);
    }
  }

  /** What was received are these requests, in any chunks. */
  ghost predicate ReceivedRequests(s: State, ms: seq<Message>) {
    RpcStreams.AllEncodable(ms) && s.received == Concat(Packets(ms))
  }

  lemma {:induction false} EventsAreRequests(s: State, ms: seq<Message>)
    requires Parsed(s) && ReceivedRequests(s, ms)
    ensures |s.events| == |ms|
    ensures forall i :: 0 <= i < |ms| ==> s.events[i] == Complete(ms[i])
  {
    RunPackets(ms);
    CompletionsAt(ms);
  }

  /** A response to a request carries its id. */
  lemma {:induction false} AnswerHasId(s: State, ms: seq<Message>, j: nat)
    requires Inv(s) && ReceivedRequests(s, ms) && j < |s.answered|
    ensures s.answered[j].request < |ms| && s.answered[j].frame.id == ms[s.answered[j].request].id
  {
    EventsAreRequests(s, ms);
    assert s.answered[j] in s.answered;
    hide Parsed, Once, Written, Net.Inv, ReceivedRequests;
  }

  /**
   * End to end, for any chunking of the requests `ms` and any schedule: as soon as pool
   * and loop are idle there is exactly one response for each request, and it carries the
   * request's id.
   */
  lemma {:induction false} OneResponsePerRequest(s: State, actions: seq<Action>, ms: seq<Message>)
    requires Init(s) && CanRun(s, actions)
    requires ReceivedRequests(RunOf(s, actions), ms) && Idle(RunOf(s, actions))
    ensures var t := RunOf(s, actions);
      && |t.answered| == |ms|
      && (forall i, j :: 0 <= i < j < |ms| ==> t.answered[i].request != t.answered[j].request)
      && (forall j :: 0 <= j < |ms| ==>
            t.answered[j].request < |ms| && t.answered[j].frame.id == ms[t.answered[j].request].id)
      && (forall k :: 0 <= k < |ms| ==> HasAnswer(t, k))
  {
    hide Inv, Init, ReceivedRequests, CanRun, RunOf, Idle;
    InitHasInv(s);
    RunKeepsInv(s, actions);
    var t := RunOf(s, actions);
    assert Parsed(t) && Once(t) by { InvParts(t); }
    EventsAreRequests(t, ms);
    AnsweredCount(t);
    forall j | 0 <= j < |t.answered|
      ensures t.answered[j].request < |ms| && t.answered[j].frame.id == ms[t.answered[j].request].id
    {
      AnswerHasId(t, ms, j);
    }
    forall i, j | 0 <= i < j < |t.answered|
      ensures t.answered[i].request != t.answered[j].request
    {
      NothingTwice(t, i, j);
    }
    forall k | 0 <= k < |ms|
      ensures HasAnswer(t, k)
    {
      var j := NothingForgotten(t, k);
    }
  }

  ghost predicate HasAnswer(s: State, k: nat) {
    exists j :: 0 <= j < |s.answered| && s.answered[j].request == k
  }

  lemma InvParts(s: State)
    requires Inv(s)
    ensures Parsed(s) && Once(s) && Truthful(s)
  {
    hide Parsed, Once, Truthful, Written, Net.Inv;
  }

  lemma AnsweredCount(s: State)
    requires Inv(s) && Idle(s)
    ensures |s.answered| == |s.events|
  {
    NobodyWorking(s.working);
    hide InHand, Net.Inv, Parsed, Written, Truthful;
    assert Asked([]) == [];
    assert multiset(Asked(s.answered)) == multiset(Numbers(0, |s.events|));
    assert |multiset(Asked(s.answered))| == |multiset(Numbers(0, |s.events|))|;
  }

  /** Bodies fit the 32-bit length of a response. */
  ghost predicate BodiesFit(s: State) {
    forall a :: a in s.answered ==> |a.frame.body| < Pow256(4)
  }

  lemma {:induction false} AnswersAreEncodable(s: State)
    requires Inv(s) && BodiesFit(s)
    ensures RpcResponse.AllEncodable(Frames(s.answered))
  {
    var fs := Frames(s.answered);
    hide Once, Written, Net.Inv;
    forall f | f in fs
      ensures f.Encodable()
    {
      var j :| 0 <= j < |fs| && fs[j] == f;
      var a := s.answered[j];
      assert a in s.answered;
      var h :| a.frame == Reply(s.handlers, s.events[a.request], h);
      IdsFit(s, a.request);
      Widths();
    }
  }

  /** Ids that come out of the parser fit their eight bytes. */
  lemma {:induction false} IdsFit(s: State, k: nat)
    requires Parsed(s) && k < |s.events|
    ensures s.events[k].Complete? ==> s.events[k].m.id < Pow256(8)
  {
    RunIds(FRESH, s.received);
  }

  lemma {:induction false} RunIds(c: Snapshot, bs: seq<byte>)
    requires RpcAutomaton.Valid(c)
    ensures forall e :: e in Run(c, bs).events && e.Complete? ==> e.m.id < Pow256(8)
    decreases |bs|
  {
    if bs != [] {
      StepIds(c, bs[0]);
      StepValid(c, bs[0]);
      hide Step, RpcAutomaton.Valid;
      RunIds(Step(c, bs[0]).next, bs[1..]);
    }
  }

  lemma StepIds(c: Snapshot, b: byte)
    requires RpcAutomaton.Valid(c)
    ensures forall e :: e in Step(c, b).events && e.Complete? ==> e.m.id < Pow256(8)
  {
  }

  /**
   * What the client makes of it: at any moment the bytes sent so far, in any chunks, parse
   * to the first responses in the order they were written, with less than the next one
   * left over, and once the queue is flushed to all of them.
   */
  lemma {:induction false} ClientReadsResponses(s: State, chunks: seq<seq<byte>>)
    requires Inv(s) && BodiesFit(s) && Concat(chunks) == s.conn.sent
    ensures var (got, rest) := DrainChunks([], chunks);
      && got <= Frames(s.answered) && s.conn.sent == FramesBytes(got) + rest
      && (|got| < |s.answered| ==> |rest| < |FrameBytes(s.answered[|got|].frame)|)
      && (s.conn.live && s.conn.queue == [] ==> got == Frames(s.answered) && rest == [])
  {
    SentIsWholeFrames(s);
    AnswersAreEncodable(s);
    var fs := Frames(s.answered);
    assert forall i :: 0 <= i < |fs| ==> fs[i] == s.answered[i].frame;
    hide Inv, BodiesFit, Frames, FramesBytes, DrainChunks, Concat;
    assert [] + Concat(chunks) == Concat(chunks);
    assert OnStream([] + Concat(chunks), fs);
    assert fs != [] ==> 0 < |FrameBytes(fs[0])|;
    DrainChunksOnStream([], fs, chunks);
    if s.conn.live && s.conn.queue == [] {
      ResponseRoundTrip(fs, chunks);
    }
  }

  ghost predicate DistinctIds(ms: seq<Message>) {
    forall i, j :: 0 <= i < j < |ms| ==> ms[i].id != ms[j].id
  }

  /** With distinct request ids no two responses share an id. */
  lemma {:induction false} AnswersAreDistinct(s: State, ms: seq<Message>)
    requires Inv(s) && ReceivedRequests(s, ms) && DistinctIds(ms)
    ensures Distinct(map[], Frames(s.answered))
  {
    InvParts(s);
    var fs := Frames(s.answered);
    hide Inv, ReceivedRequests, Parsed, Once, Truthful;
    forall i, j | 0 <= i < j < |fs|
      ensures fs[i].id != fs[j].id
    {
      AnswerHasId(s, ms, i);
      AnswerHasId(s, ms, j);
      NothingTwice(s, i, j);
    }
  }

  // ----- what the handlers did -----

  /** What the handlers of the requests did in a run, read off its `Finish` actions. */
  ghost function Did(s: State, actions: seq<Action>, before: map<nat, Handled>): map<nat, Handled>
    requires CanRun(s, actions)
    decreases |actions|
  {
    if actions == [] then before else Did(Next(s, actions[0]), actions[1..], DidAfter(s, actions[0], before))
  }

  ghost function DidAfter(s: State, a: Action, before: map<nat, Handled>): map<nat, Handled>
    requires Possible(s, a)
  {
    if a.Finish? then before[s.working[a.w].value := a.handled] else before
  }

  ghost predicate IsResponse(s: State, a: Answer, did: map<nat, Handled>) {
    a.request < |s.events| && a.request in did && Responds(s.handlers, s.events[a.request], did[a.request], a.frame)
  }

  /** Every response that is posted or written is the one that its request deserves. */
  ghost predicate AllResponses(s: State, did: map<nat, Handled>) {
    && (forall a :: a in s.posted ==> IsResponse(s, a, did))
    && (forall a :: a in s.answered ==> IsResponse(s, a, did))
  }

  /** A request in a worker's hand has not been answered. */
  lemma {:induction false} InHandIsOpen(s: State, w: nat, a: Answer)
    requires Once(s) && w < |s.working| && s.working[w].Some? && (a in s.posted || a in s.answered)
    ensures a.request != s.working[w].value
  {
    var x := s.working[w].value;
    InHandUpdate(s.working, w, None);
    OneOf(0, |s.events|, x);
    AskedHas(s.posted, a);
    AskedHas(s.answered, a);
    assert InHand(s.working)[x] >= 1;
    hide InHand, Asked, Numbers;
  }

  lemma AskedHas(answers: seq<Answer>, a: Answer)
    ensures a in answers ==> multiset(Asked(answers))[a.request] >= 1
  {
    if a in answers {
      var j :| 0 <= j < |answers| && answers[j] == a;
      assert Asked(answers)[j] == a.request;
    }
  }

  lemma SameResponse(s: State, t: State, a: Answer, did: map<nat, Handled>, later: map<nat, Handled>)
    requires IsResponse(s, a, did) && t.handlers == s.handlers && s.events <= t.events
    requires a.request in later && later[a.request] == did[a.request]
    ensures IsResponse(t, a, later)
  {
    hide Responds;
  }

  lemma {:induction false} FinishResponds(s: State, w: nat, handled: Handled, did: map<nat, Handled>)
    requires Once(s) && Possible(s, Finish(w, handled)) && AllResponses(s, did)
    ensures AllResponses(Next(s, Finish(w, handled)), did[s.working[w].value := handled])
  {
    var x := s.working[w].value;
    var later, t := did[x := handled], Next(s, Finish(w, handled));
    var f := Reply(s.handlers, s.events[x], handled);
    assert Responds(s.handlers, s.events[x], handled, f);
    assert IsResponse(t, Answer(x, f), later);
    hide Once, Reply, Responds;
    forall a | a in s.posted || a in s.answered
      ensures IsResponse(t, a, later)
    {
      InHandIsOpen(s, w, a);
      SameResponse(s, t, a, did, later);
    }
  }

  lemma {:induction false} StepResponds(s: State, a: Action, did: map<nat, Handled>)
    requires Inv(s) && Possible(s, a) && AllResponses(s, did)
    ensures AllResponses(Next(s, a), DidAfter(s, a, did)) && Next(s, a).handlers == s.handlers
  {
    InvParts(s);
    hide Inv, Once, Responds, Parsed, Truthful;
    if a.Finish? {
      FinishResponds(s, a.w, a.handled, did);
    } else {
      AnswersStay(s, a);
      var t := Next(s, a);
      hide Possible, Next;
      forall b | b in t.posted || b in t.answered
        ensures IsResponse(t, b, did)
      {
        SameResponse(s, t, b, did, did);
      }
    }
  }

  /** No step but `Finish` makes a response. */
  lemma AnswersStay(s: State, a: Action)
    requires Possible(s, a) && !a.Finish?
    ensures var t := Next(s, a);
      && t.handlers == s.handlers && s.events <= t.events
      && forall b :: b in t.posted || b in t.answered ==> b in s.posted || b in s.answered
  {
    hide Run, RpcAutomaton.Valid, Net.Possible, Net.Apply;
    assert a.RunPosted? ==> s.posted[0] in s.posted;
  }

  lemma {:induction false} RunResponds(s: State, actions: seq<Action>, did: map<nat, Handled>)
    requires Inv(s) && CanRun(s, actions) && AllResponses(s, did)
    ensures AllResponses(RunOf(s, actions), Did(s, actions, did)) && RunOf(s, actions).handlers == s.handlers
    decreases |actions|
  {
    if actions != [] {
      hide Inv, Next, Possible, AllResponses, DidAfter;
      StepResponds(s, actions[0], did);
      StepKeepsInv(s, actions[0]);
      RunResponds(Next(s, actions[0]), actions[1..], DidAfter(s, actions[0], did));
    }
  }

  /** The chunks that a run reads, off its actions. */
  function ChunksRead(actions: seq<Action>): seq<seq<byte>> {
    if actions == [] then []
    else (if actions[0].Read? then [actions[0].chunk] else []) + ChunksRead(actions[1..])
  }

  /** The server receives exactly the bytes that are read. */
  lemma {:induction false} ReceivedIsRead(s: State, actions: seq<Action>)
    requires CanRun(s, actions)
    ensures RunOf(s, actions).received == s.received + Concat(ChunksRead(actions))
    decreases |actions|
  {
    if actions == [] {
      NothingAdded(s.received);
    } else {
      var a, t := actions[0], Next(s, actions[0]);
      assert t.received == if a.Read? then s.received + a.chunk else s.received;
      hide Next, Possible;
      ReceivedIsRead(t, actions[1..]);
      if a.Read? {
        assert ([a.chunk] + ChunksRead(actions[1..]))[1..] == ChunksRead(actions[1..]);
        Assoc(s.received, a.chunk, Concat(ChunksRead(actions[1..])));
      } else {
        NothingAdded(ChunksRead(actions[1..]));
      }
    }
  }

  // ----- first in, first out -----

  /** The numbers of the parse results that workers take in a run. */
  ghost function Taken(s: State, actions: seq<Action>): seq<nat>
    requires CanRun(s, actions)
    decreases |actions|
  {
    if actions == [] then [] else TakenBy(s, actions[0]) + Taken(Next(s, actions[0]), actions[1..])
  }

  /** What ends up in the hand of a worker that takes a task. */
  ghost function TakenBy(s: State, a: Action): seq<nat>
    requires Possible(s, a)
  {
    if a.Take? && Next(s, a).working[a.w].Some? then [Next(s, a).working[a.w].value] else []
  }

  /** The numbers of the requests whose handlers finish in a run. */
  ghost function Finished(s: State, actions: seq<Action>): seq<nat>
    requires CanRun(s, actions)
    decreases |actions|
  {
    if actions == [] then [] else FinishedBy(s, actions[0]) + Finished(Next(s, actions[0]), actions[1..])
  }

  ghost function FinishedBy(s: State, a: Action): seq<nat>
    requires Possible(s, a)
  {
    if a.Finish? then [s.working[a.w].value] else []
  }

  lemma {:induction false} StepInOrder(s: State, a: Action)
    requires Possible(s, a) && |s.tasks| <= |s.events| && s.tasks == Numbers(|s.events| - |s.tasks|, |s.events|)
    ensures var t := Next(s, a);
      && |t.tasks| <= |t.events| && t.tasks == Numbers(|t.events| - |t.tasks|, |t.events|)
      && TakenBy(s, a) == Numbers(|s.events| - |s.tasks|, |t.events| - |t.tasks|)
      && Asked(t.answered) + Asked(t.posted) == (Asked(s.answered) + Asked(s.posted)) + FinishedBy(s, a)
  {
    hide Run, Net.Possible, Net.Apply, Reply;
    var t := Next(s, a);
    NothingAdded(Asked(s.answered) + Asked(s.posted));
    match a
    case Read(chunk) => NumbersJoin(|s.events| - |s.tasks|, |s.events|, |t.events|);
    case Finish(w, _) =>
      AskedParts(s.posted, t.posted[|s.posted|]);
      Assoc(Asked(s.answered), Asked(s.posted), [s.working[w].value]);
    case RunPosted =>
      AskedParts(s.answered, s.posted[0]);
      AskedParts(s.posted, s.posted[0]);
      assert Asked(s.posted) == [s.posted[0].request] + Asked(s.posted[1..]);
      Assoc(Asked(s.answered), [s.posted[0].request], Asked(s.posted[1..]));
    case _ =>
  }

  /**
   * The pool takes the parse results in the order in which they were read, and the
   * responses are written in the order in which the handlers finish.
   */
  lemma {:induction false} RunInOrder(s: State, actions: seq<Action>)
    requires CanRun(s, actions) && |s.tasks| <= |s.events| && s.tasks == Numbers(|s.events| - |s.tasks|, |s.events|)
    ensures var t := RunOf(s, actions);
      && |s.events| - |s.tasks| <= |t.events| - |t.tasks|
      && Taken(s, actions) == Numbers(|s.events| - |s.tasks|, |t.events| - |t.tasks|)
      && Asked(t.answered) + Asked(t.posted) == (Asked(s.answered) + Asked(s.posted)) + Finished(s, actions)
    decreases |actions|
  {
    if actions == [] {
      NothingAdded(Asked(s.answered) + Asked(s.posted));
    } else {
      var n := Next(s, actions[0]);
      StepInOrder(s, actions[0]);
      hide Next, Possible, TakenBy, FinishedBy, Asked;
      RunInOrder(n, actions[1..]);
      var t := RunOf(s, actions);
      NumbersJoin(|s.events| - |s.tasks|, |n.events| - |n.tasks|, |t.events| - |t.tasks|);
      Assoc(Asked(s.answered) + Asked(s.posted), FinishedBy(s, actions[0]), Finished(n, actions[1..]));
    }
  }

  // ----- from the first byte to the last -----

  /** `r` is the response to `m`, whose handler did `handled` if it has one. */
  ghost predicate IsReplyTo(handlers: set<FuncKey>, m: Message, handled: Handled, r: Received) {
    r.Got? && Responds(handlers, Complete(m), handled, r.frame)
  }

  /** The response to request `k` is on file under its id. */
  lemma {:induction false} OnFile(s: State, did: map<nat, Handled>, ms: seq<Message>, k: nat)
    requires Inv(s) && AllResponses(s, did) && Idle(s) && ReceivedRequests(s, ms) && DistinctIds(ms) && k < |ms|
    ensures var table := Table(map[], Frames(s.answered));
      ms[k].id in table && k in did && IsReplyTo(s.handlers, ms[k], did[k], Got(table[ms[k].id]))
  {
    InvParts(s);
    EventsAreRequests(s, ms);
    AnswersAreDistinct(s, ms);
    var j := NothingForgotten(s, k);
    var a := s.answered[j];
    assert a in s.answered;
    assert IsResponse(s, a, did);
    AnswerHasId(s, ms, j);
    var fs := Frames(s.answered);
    assert fs[j] == a.frame;
    hide Inv, Idle, ReceivedRequests, Parsed, Once, Truthful, Responds, Frames, ById, AllResponses;
    ByIdAt(fs);
    assert map[] + ById(fs) == ById(fs);
  }

  /** The ids of the requests numbered in `order`. */
  function Ids(ms: seq<Message>, order: seq<nat>): (ids: seq<nat>)
    requires forall i :: 0 <= i < |order| ==> order[i] < |ms|
    ensures |ids| == |order|
  {
    seq(|order|, i requires 0 <= i < |order| => ms[order[i]].id)
  }

  /**
   * From the first byte to the last: a run reads the packets of the requests `ms`, in any
   * chunks and under any schedule, until pool and loop are idle and the queue is flushed.
   * Then a client that receives the sent bytes, in any chunks, and asks for the responses
   * one after another, in any order, gets for every request the response that it deserves
   * for what its handler did in that run.
   */
  lemma {:induction false} EveryCallGetsItsResponse(s: State, actions: seq<Action>, ms: seq<Message>, chunks: seq<seq<byte>>, order: seq<nat>)
    requires Init(s) && CanRun(s, actions)
    requires RpcStreams.AllEncodable(ms) && Concat(ChunksRead(actions)) == Concat(Packets(ms)) && DistinctIds(ms)
    requires var t := RunOf(s, actions);
      Idle(t) && BodiesFit(t) && t.conn.live && t.conn.queue == [] && Concat(chunks) == t.conn.sent
    requires NeverCloses(chunks)
    requires forall i :: 0 <= i < |order| ==> order[i] < |ms|
    requires forall i, j :: 0 <= i < j < |order| ==> order[i] != order[j]
    ensures var did := Did(s, actions, map[]);
      var calls := ReceiveAll([], map[], Ids(ms, order), chunks);
      forall i :: 0 <= i < |order| ==>
        order[i] in did && IsReplyTo(s.handlers, ms[order[i]], did[order[i]], calls[i])
  {
    InitHasInv(s);
    RunKeepsInv(s, actions);
    RunResponds(s, actions, map[]);
    ReceivedIsRead(s, actions);
    NothingAdded(Concat(ChunksRead(actions)));
    var t := RunOf(s, actions);
    assert ReceivedRequests(t, ms);
    hide Inv, CanRun, RunOf, Did, Idle, BodiesFit, ReceivedRequests, DistinctIds, AllResponses, IsReplyTo, Concat, NeverCloses;
    CallsOnFlushed(t, Did(s, actions, map[]), ms, chunks, order);
  }

  lemma {:induction false} CallsOnFlushed(s: State, did: map<nat, Handled>, ms: seq<Message>, chunks: seq<seq<byte>>, order: seq<nat>)
    requires Inv(s) && AllResponses(s, did) && Idle(s) && BodiesFit(s) && ReceivedRequests(s, ms) && DistinctIds(ms)
    requires s.conn.live && s.conn.queue == [] && Concat(chunks) == s.conn.sent && NeverCloses(chunks)
    requires forall i :: 0 <= i < |order| ==> order[i] < |ms|
    requires forall i, j :: 0 <= i < j < |order| ==> order[i] != order[j]
    ensures var calls := ReceiveAll([], map[], Ids(ms, order), chunks);
      forall i :: 0 <= i < |order| ==>
        order[i] in did && IsReplyTo(s.handlers, ms[order[i]], did[order[i]], calls[i])
  {
    SentIsWholeFrames(s);
    AnswersAreEncodable(s);
    AnswersAreDistinct(s, ms);
    var fs, ids := Frames(s.answered), Ids(ms, order);
    DifferentIds(ms, order);
    hide Inv, Idle, BodiesFit, ReceivedRequests, DistinctIds, Frames, FramesBytes, Concat, Table, Distinct, ReceiveAll, IsReplyTo,
      NeverCloses, AllResponses;
    forall i | 0 <= i < |order|
      ensures ids[i] in Table(map[], fs) && order[i] in did
      ensures IsReplyTo(s.handlers, ms[order[i]], did[order[i]], Got(Table(map[], fs)[ids[i]]))
    {
      OnFile(s, did, ms, order[i]);
    }
    assert [] + Concat(chunks) == Concat(chunks);
    EveryCallReturns([], map[], ids, chunks, fs);
  }

  lemma {:induction false} DifferentIds(ms: seq<Message>, order: seq<nat>)
    requires DistinctIds(ms)
    requires forall i :: 0 <= i < |order| ==> order[i] < |ms|
    requires forall i, j :: 0 <= i < j < |order| ==> order[i] != order[j]
    ensures forall i, j :: 0 <= i < j < |order| ==> Ids(ms, order)[i] != Ids(ms, order)[j]
  {
    forall i, j | 0 <= i < j < |order|
      ensures ms[order[i]].id != ms[order[j]].id
    {
      assert order[i] < order[j] || order[j] < order[i];
    }
  }
}
