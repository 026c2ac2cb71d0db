/**
 * The server's frame parser as an automaton that reads one byte at a time.  `Step` is
 * the reference that the chunked parser refines; `StepMeaning` says, in terms of
 * packets alone, what it accepts and what it rejects.
 */
module RpcAutomaton {
  import opened Bytes
  import opened RpcFrame

  datatype Status =
    | Soa | Sob | FrameType | RequestId | ErrorCode
    | ServiceLen | ServiceName | FuncLen | FuncName
    | ParamLen | ParamString | Eob | Eoc

  /** The fields of an `RpcContext`, apart from the result of the last call. */
  datatype Snapshot = Snapshot(
    status: Status, id: nat, service: seq<byte>, func: seq<byte>, params: seq<byte>, buffer: seq<byte>)

  /** What one call of the parser can hand to the thread pool. */
  datatype Event = Complete(m: Message) | Error

  datatype Outcome = Outcome(next: Snapshot, events: seq<Event>)

  const FRESH := Snapshot(Soa, 0, [], [], [], [])

  /** States in which the parser gathers a counted run of bytes. */
  predicate Gathers(st: Status) {
    st in {RequestId, ServiceName, FuncName, ParamLen, ParamString}
  }

  function Gathered(s: Snapshot): seq<byte>
    requires Gathers(s.status)
  {
    match s.status
    case ServiceName => s.service
    case FuncName => s.func
    case ParamString => s.params
    case _ => s.buffer
  }

  function Need(s: Snapshot): (n: nat)
    requires Gathers(s.status)
  {
    match s.status
    case RequestId => 8
    case ParamLen => 4
    case ParamString => FromBe(s.buffer)
    case _ => if s.buffer == [] then 0 else s.buffer[0]
  }

  function Gather(s: Snapshot, bs: seq<byte>): Snapshot
    requires Gathers(s.status)
  {
    match s.status
    case ServiceName => s.(service := s.service + bs)
    case FuncName => s.(func := s.func + bs)
    case ParamString => s.(params := s.params + bs)
    case _ => s.(buffer := s.buffer + bs)
  }

  /** The states the parser can be in between two bytes. */
  ghost predicate Valid(s: Snapshot) {
    && (s.id != 0 <==> s.status !in {Soa, Sob, FrameType, RequestId})
    && s.id < Pow256(8)
    && |s.service| < 0x100 && |s.func| < 0x100 && |s.params| < Pow256(4)
    && (s.status in {Soa, Sob, FrameType, RequestId, ErrorCode, ServiceLen} ==> s.service == [])
    && (s.status in {Soa, Sob, FrameType, RequestId, ErrorCode, ServiceLen, ServiceName, FuncLen} ==> s.func == [])
    && (s.status !in {ParamString, Eob, Eoc} ==> s.params == [])
    && (!Gathers(s.status) ==> s.buffer == [])
    && (s.status in {ServiceName, FuncName} ==> |s.buffer| == 1)
    && (s.status == ParamString ==> |s.buffer| == 4)
    && (Gathers(s.status) ==> |Gathered(s)| < Need(s) || (Need(s) == 0 && Gathered(s) == []))
  }

  /** The end of a counted field. */
  function Finish(s: Snapshot): (o: Outcome)
    requires Gathers(s.status)
  {
    match s.status
    case RequestId =>
      var id := FromBe(s.buffer);
      if id == 0 then Outcome(FRESH, [Error]) else Outcome(s.(id := id, buffer := [], status := ErrorCode), [])
    case ServiceName => Outcome(s.(buffer := [], status := FuncLen), [])
    case FuncName => Outcome(s.(buffer := [], status := ParamLen), [])
    case ParamLen => Outcome(s.(params := [], status := ParamString), [])
    case ParamString => Outcome(s.(buffer := [], status := Eob), [])
  }

  /** A zero-length field ends as soon as another byte is there, without consuming it. */
  function Settle(s: Snapshot): (t: Snapshot)
    requires Valid(s)
    ensures Valid(t) && (Gathers(t.status) ==> Need(t) > 0)
  {
    Widths();
    if Gathers(s.status) && Need(s) == 0 then Finish(s).next else s
  }

  /** Where a rejected byte that is looked at again leaves a fresh parser. */
  function Restart(b: byte): Snapshot {
    if b == MAGIC0 then FRESH.(status := Sob) else FRESH
  }

  /** A byte in a state that is not gathering. */
  function StepPlain(t: Snapshot, b: byte): Outcome
    requires !Gathers(t.status)
  {
    match t.status
    case Soa => Outcome(Restart(b), [])
    case Sob => if b == MAGIC1 then Outcome(FRESH.(status := FrameType), []) else Outcome(Restart(b), [Error])
    case FrameType => if b == REQUEST then Outcome(t.(status := RequestId), []) else Outcome(FRESH, [Error])
    case ErrorCode => if b == 0 then Outcome(t.(status := ServiceLen), []) else Outcome(FRESH, [Error])
    case ServiceLen => Outcome(t.(service := [], buffer := [b], status := ServiceName), [])
    case FuncLen => Outcome(t.(func := [], buffer := [b], status := FuncName), [])
    case Eob => if b == MAGIC1 then Outcome(t.(status := Eoc), []) else Outcome(Restart(b), [Error])
    case Eoc =>
      if b == MAGIC2 then Outcome(FRESH, [Complete(Message(t.id, t.service, t.func, t.params))])
      else Outcome(Restart(b), [Error])
  }

  function Step(s: Snapshot, b: byte): Outcome
    requires Valid(s)
  {
    var t := Settle(s);
    if Gathers(t.status) then
      var g := Gather(t, [b]);
      if |Gathered(g)| == Need(g) then Finish(g) else Outcome(g, [])
    else
      StepPlain(t, b)
  }

  lemma GatherValid(t: Snapshot, bs: seq<byte>)
    requires Valid(t) && Gathers(t.status) && |Gathered(t)| + |bs| <= Need(t)
    ensures Gather(t, bs).status == t.status
    ensures Gathered(Gather(t, bs)) == Gathered(t) + bs
    ensures Need(Gather(t, bs)) == Need(t)
    ensures |Gathered(t)| + |bs| < Need(t) ==> Valid(Gather(t, bs))
  {
    Widths();
  }

  lemma FinishValid(t: Snapshot, bs: seq<byte>)
    requires Valid(t) && Gathers(t.status) && |Gathered(t)| + |bs| == Need(t)
    ensures Valid(Finish(Gather(t, bs)).next)
  {
    Widths();
    GatherValid(t, bs);
  }

  lemma StepValid(s: Snapshot, b: byte)
    requires Valid(s)
    ensures Valid(Step(s, b).next)
  {
    var t := Settle(s);
    if Gathers(t.status) {
      hide Settle, Valid, Finish, Gather;
      GatherValid(t, [b]);
      if |Gathered(t)| + 1 == Need(t) {
        FinishValid(t, [b]);
      } else {
        assert |Gathered(t)| < Need(t) by { SettledNeeds(s); }
      }
    } else {
      hide Settle;
      Widths();
    }
  }

  lemma SettledNeeds(s: Snapshot)
    requires Valid(s)
    ensures Gathers(Settle(s).status) ==> |Gathered(Settle(s))| < Need(Settle(s))
  {
  }

  /** The whole of `bs`, one byte after another. */
  function Run(s: Snapshot, bs: seq<byte>): (o: Outcome)
    requires Valid(s)
    ensures Valid(o.next)
    decreases |bs|
  {
    if bs == [] then Outcome(s, [])
    else
      var o := Step(s, bs[0]);
      StepValid(s, bs[0]);
      var r := Run(o.next, bs[1..]);
      Outcome(r.next, o.events + r.events)
  }

  /** `o`, then the events and the state of `r`. */
  function Then(events: seq<Event>, r: Outcome): Outcome {
    Outcome(r.next, events + r.events)
  }

  /** Reading in two parts is reading at once: nothing depends on where a stream is cut. */
  lemma {:induction false} RunAppend(s: Snapshot, a: seq<byte>, b: seq<byte>)
    requires Valid(s)
    ensures Run(s, a + b) == Then(Run(s, a).events, Run(Run(s, a).next, b))
    decreases |a|
  {
    hide Step, Valid;
    if a == [] {
      assert a + b == b;
    } else {
      StepValid(s, a[0]);
      RunAppend(Step(s, a[0]).next, a[1..], b);
      assert (a + b)[1..] == a[1..] + b;
      var r := Run(Step(s, a[0]).next, a[1..]);
      var q := Run(r.next, b);
      assert Step(s, a[0]).events + (r.events + q.events) == (Step(s, a[0]).events + r.events) + q.events;
    }
  }

  /** A counted field read in bulk, as far as it goes. */
  lemma {:induction false} RunGather(s: Snapshot, bs: seq<byte>)
    requires Valid(s) && Gathers(s.status) && bs != []
    requires |Gathered(s)| + |bs| <= Need(s)
    ensures Run(s, bs) == if |Gathered(s)| + |bs| == Need(s) then Finish(Gather(s, bs)) else Outcome(Gather(s, bs), [])
    decreases |bs|
  {
    hide Valid, Step, Gather, Finish, Gathered, Need;
    StepGather(s, bs[0]);
    StepValid(s, bs[0]);
    GatherValid(s, [bs[0]]);
    if |bs| == 1 {
      assert bs == [bs[0]] && bs[1..] == [];
    } else {
      RunGather(Gather(s, [bs[0]]), bs[1..]);
      GatherGather(s, bs);
    }
  }

  lemma StepGather(s: Snapshot, b: byte)
    requires Valid(s) && Gathers(s.status) && |Gathered(s)| < Need(s)
    ensures Step(s, b) == if |Gathered(s)| + 1 == Need(s) then Finish(Gather(s, [b])) else Outcome(Gather(s, [b]), [])
  {
    assert Settle(s) == s;
    GatherValid(s, [b]);
    hide Settle, Valid, Gather, Finish, Gathered, Need;
  }

  lemma GatherGather(s: Snapshot, bs: seq<byte>)
    requires Gathers(s.status) && bs != []
    ensures Gather(Gather(s, [bs[0]]), bs[1..]) == Gather(s, bs)
  {
    assert (Gathered(s) + [bs[0]]) + bs[1..] == Gathered(s) + bs;
  }
}
