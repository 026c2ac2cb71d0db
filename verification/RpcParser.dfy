/**
 * The server's parser over chunks, in the form the server runs it, and the read
 * callback that drives it.  Both refine the one-byte automaton.
 */
module RpcParser {
  import opened Bytes
  import opened RpcFrame
  import opened RpcAutomaton

  datatype ParseResult = COMPLETE | WAITING | ERROR

  class RpcContext {
    var status: Status
    var result: ParseResult
    var requestId: nat
    var serviceName: seq<byte>
    var funcName: seq<byte>
    var params: seq<byte>
    var buffer: seq<byte>

    ghost function Snap(): Snapshot
      reads this
    {
      Snapshot(status, requestId, serviceName, funcName, params, buffer)
    }

    constructor ()
      ensures Snap() == FRESH && result == WAITING
    {
      status, result, requestId := Soa, WAITING, 0;
      serviceName, funcName, params, buffer := [], [], [], [];
    }

    method ResetMessage()
      modifies `requestId, `serviceName, `funcName, `params, `buffer
      ensures requestId == 0 && serviceName == [] && funcName == [] && params == [] && buffer == []
    {
      requestId := 0;
      serviceName, funcName, params, buffer := [], [], [], [];
    }

    /** `local = std::move(*context); *context = RpcContext{}`. */
    method Take() returns (event: Event)
      requires result != WAITING
      modifies this
      ensures event == EventOf(old(result), old(Snap()))
      ensures Snap() == FRESH && result == WAITING
    {
      event := if result == ERROR then Error else Complete(Message(requestId, serviceName, funcName, params));
      status, result := Soa, WAITING;
      ResetMessage();
    }

    method SetError()
      modifies this
      ensures Snap() == FRESH && result == ERROR
    {
      result, status := ERROR, Soa;
      ResetMessage();
    }

    /** `read_fixed`: gather bytes until `need` of them are there or the chunk ends. */
    method ReadFixed(need: nat, data: seq<byte>, i: nat, end: nat) returns (j: nat, full: bool)
      requires i < end <= |data| && |buffer| < need
      modifies `buffer, `result
      ensures i < j <= end && |old(buffer)| + (j - i) <= need
      ensures Snap() == old(Snap()).(buffer := old(buffer) + data[i..j])
      ensures full <==> |buffer| == need
      ensures full ==> result == old(result)
      ensures !full ==> j == end && result == WAITING
    {
      j := i;
      while |buffer| < need && j < end
        invariant i <= j <= end && |buffer| <= need && result == old(result)
        invariant Snap() == old(Snap()).(buffer := old(buffer) + data[i..j])
      {
        buffer := buffer + [data[j]];
        j := j + 1;
        assert data[i..j] == data[i..j - 1] + [data[j - 1]];
      }
      full := |buffer| == need;
      if !full {
        result := WAITING;
      }
    }
  }

  /** `read_var`: the field after taking what the chunk has of it. */
  method ReadVar(len: nat, out: seq<byte>, data: seq<byte>, i: nat, end: nat)
    returns (grown: seq<byte>, j: nat, full: bool)
    requires i < end <= |data| && |out| <= len
    ensures i <= j <= end && |out| + (j - i) <= len
    ensures grown == out + data[i..j]
    ensures full <==> |grown| == len
    ensures !full ==> j == end
    ensures |out| < len ==> i < j
  {
    grown, j := out, i;
    var remain := len - |out|;
    if remain > 0 {
      var avail := end - i;
      var take := if remain < avail then remain else avail;
      grown := out + data[i..i + take];
      j := i + take;
    }
    full := |grown| == len;
  }

  /** One byte more of a chunk. */
  lemma RunByte(s: Snapshot, data: seq<byte>, i: nat, end: nat)
    requires Valid(s) && i < end <= |data|
    ensures Valid(Step(s, data[i]).next)
    ensures Run(s, data[i..end]) == Then(Step(s, data[i]).events, Run(Step(s, data[i]).next, data[i + 1..end]))
  {
    hide Step, Valid;
    StepValid(s, data[i]);
    assert data[i..end][1..] == data[i + 1..end];
  }

  lemma RunQuietByte(s: Snapshot, n: Snapshot, data: seq<byte>, i: nat, end: nat)
    requires Valid(s) && i < end <= |data| && Step(s, data[i]) == Outcome(n, [])
    ensures Valid(n) && Run(s, data[i..end]) == Run(n, data[i + 1..end])
  {
    hide Step, Valid;
    RunByte(s, data, i, end);
    var r := Run(n, data[i + 1..end]);
    assert [] + r.events == r.events;
  }

  lemma RestartIsFresh(b: byte)
    ensures Valid(FRESH) && Step(FRESH, b) == Outcome(Restart(b), [])
  {
  }

  /** The byte at `i` rejects the frame; `j` says whether it is consumed. */
  lemma RunErrorByte(s: Snapshot, data: seq<byte>, i: nat, j: nat, end: nat)
    requires Valid(s) && i < end <= |data| && Step(s, data[i]).events == [Error]
    requires (j == i + 1 && Step(s, data[i]).next == FRESH) || (j == i && Step(s, data[i]).next == Restart(data[i]))
    ensures Valid(FRESH) && Run(s, data[i..end]) == Then([Error], Run(FRESH, data[j..end]))
  {
    hide Step, Valid;
    RunByte(s, data, i, end);
    RestartIsFresh(data[i]);
    if j == i {
      RunQuietByte(FRESH, Restart(data[i]), data, i, end);
    }
  }

  /** A counted field gathered from `i` to `j`. */
  lemma RunGatherSlice(s: Snapshot, data: seq<byte>, i: nat, j: nat, end: nat)
    requires Valid(s) && Gathers(s.status) && i < j <= end <= |data|
    requires |Gathered(s)| + (j - i) <= Need(s)
    ensures var g := Gather(s, data[i..j]);
      if |Gathered(s)| + (j - i) == Need(s) then
        && Valid(Finish(g).next)
        && Run(s, data[i..end]) == Then(Finish(g).events, Run(Finish(g).next, data[j..end]))
      else
        && Valid(g)
        && Run(s, data[i..end]) == Run(g, data[j..end])
  {
    hide Valid, Gather, Finish, Need, Gathered, Run;
    RunGather(s, data[i..j]);
    assert data[i..end] == data[i..j] + data[j..end];
    RunAppend(s, data[i..j], data[j..end]);
    GatherValid(s, data[i..j]);
    if |Gathered(s)| + (j - i) == Need(s) {
      FinishValid(s, data[i..j]);
    } else {
      var r := Run(Gather(s, data[i..j]), data[j..end]);
      assert [] + r.events == r.events;
    }
  }

  /** A zero-length field ends without a byte of its own. */
  lemma RunSettled(s: Snapshot, data: seq<byte>, i: nat, end: nat)
    requires Valid(s) && Gathers(s.status) && Need(s) == 0 && i < end <= |data|
    ensures Finish(s).events == [] && Valid(Finish(s).next)
    ensures Run(s, data[i..end]) == Run(Finish(s).next, data[i..end])
  {
    var t := Settle(s);
    assert t == Finish(s).next && Settle(t) == t;
    assert Step(s, data[i]) == Step(t, data[i]);
  }

  /** States ordered by how far into a frame they are; only settling goes up without a byte. */
  function Rank(st: Status): nat {
    match st
    case ServiceName => 3
    case FuncName => 2
    case ParamString => 1
    case _ => 0
  }

  /** What one call of the parser promises, for a context that was `s` on the bytes `bs`. */
  ghost predicate Parsed(s: Snapshot, bs: seq<byte>, parsed: nat, result: ParseResult, t: Snapshot)
    requires Valid(s)
  {
    && parsed <= |bs|
    && match result
       case WAITING => parsed == |bs| && Run(s, bs) == Outcome(t, [])
       case ERROR => t == FRESH && Run(s, bs) == Then([Error], Run(FRESH, bs[parsed..]))
       case COMPLETE =>
         var m := Message(t.id, t.service, t.func, t.params);
         && t.status == Soa && t.buffer == []
         && Run(s, bs) == Then([Complete(m)], Run(FRESH, bs[parsed..]))
  }

  /** What the parser still owes: the run from here is the run it was called for. */
  ghost predicate OnTrack(s0: Snapshot, s: Snapshot, data: seq<byte>, start: nat, i: nat, end: nat)
    requires Valid(s0) && start <= i <= end <= |data|
  {
    Valid(s) && Run(s0, data[start..end]) == Run(s, data[i..end])
  }

  lemma TrackPlain(s0: Snapshot, s: Snapshot, data: seq<byte>, start: nat, i: nat, end: nat)
    requires Valid(s0) && start <= i < end <= |data| && OnTrack(s0, s, data, start, i, end)
    requires !Gathers(s.status) && StepPlain(s, data[i]).events == []
    ensures OnTrack(s0, StepPlain(s, data[i]).next, data, start, i + 1, end)
  {
    assert Settle(s) == s;
    hide Settle, Valid, StepPlain, Run;
    RunQuietByte(s, StepPlain(s, data[i]).next, data, i, end);
  }

  lemma TrackPlainError(s0: Snapshot, s: Snapshot, data: seq<byte>, start: nat, i: nat, j: nat, end: nat)
    requires Valid(s0) && start <= i < end <= |data| && OnTrack(s0, s, data, start, i, end)
    requires !Gathers(s.status) && StepPlain(s, data[i]).events == [Error]
    requires var n := StepPlain(s, data[i]).next; (j == i + 1 && n == FRESH) || (j == i && n == Restart(data[i]))
    ensures Parsed(s0, data[start..end], j - start, ERROR, FRESH)
  {
    assert Settle(s) == s;
    hide Settle, Valid, StepPlain, Run;
    RunErrorByte(s, data, i, j, end);
    assert data[start..end][j - start..] == data[j..end];
  }

  lemma TrackComplete(s0: Snapshot, s: Snapshot, t: Snapshot, data: seq<byte>, start: nat, i: nat, end: nat)
    requires Valid(s0) && start <= i < end <= |data| && OnTrack(s0, s, data, start, i, end)
    requires s.status == Eoc && data[i] == MAGIC2 && t == s.(status := Soa)
    ensures Parsed(s0, data[start..end], i + 1 - start, COMPLETE, t)
  {
    assert Settle(s) == s && s.buffer == [];
    hide Settle, Valid, Run;
    RunByte(s, data, i, end);
    assert data[start..end][i + 1 - start..] == data[i + 1..end];
  }

  lemma TrackGather(s0: Snapshot, s: Snapshot, data: seq<byte>, start: nat, i: nat, j: nat, end: nat)
    requires Valid(s0) && start <= i < j <= end <= |data| && OnTrack(s0, s, data, start, i, end)
    requires Gathers(s.status) && |Gathered(s)| + (j - i) <= Need(s)
    ensures var g := Gather(s, data[i..j]);
      if |Gathered(s)| + (j - i) < Need(s) then OnTrack(s0, g, data, start, j, end)
      else if Finish(g).events == [] then OnTrack(s0, Finish(g).next, data, start, j, end)
      else Finish(g) == Outcome(FRESH, [Error]) ==> Parsed(s0, data[start..end], j - start, ERROR, FRESH)
  {
    hide Valid, Run, Gather, Finish, Gathered, Need;
    GatherValid(s, data[i..j]);
    RunGatherSlice(s, data, i, j, end);
    var n := Finish(Gather(s, data[i..j])).next;
    assert data[start..end][j - start..] == data[j..end];
    if |Gathered(s)| + (j - i) == Need(s) {
      var r := Run(n, data[j..end]);
      assert [] + r.events == r.events;
    }
  }

  lemma TrackSettle(s0: Snapshot, s: Snapshot, data: seq<byte>, start: nat, i: nat, end: nat)
    requires Valid(s0) && start <= i < end <= |data| && OnTrack(s0, s, data, start, i, end)
    requires Gathers(s.status) && Need(s) == 0
    ensures OnTrack(s0, Finish(s).next, data, start, i, end)
  {
    hide Valid, Run, Finish, Need;
    RunSettled(s, data, i, end);
  }

  /** A variable-length field: gathered, or settled where its length is zero. */
  lemma TrackField(s0: Snapshot, s: Snapshot, data: seq<byte>, start: nat, i: nat, j: nat, end: nat)
    requires Valid(s0) && start <= i < end <= |data| && i <= j <= end && OnTrack(s0, s, data, start, i, end)
    requires s.status in {ServiceName, FuncName, ParamString} && |Gathered(s)| + (j - i) <= Need(s)
    requires |Gathered(s)| < Need(s) ==> i < j
    ensures var g := Gather(s, data[i..j]);
      if |Gathered(s)| + (j - i) < Need(s) then OnTrack(s0, g, data, start, j, end)
      else OnTrack(s0, Finish(g).next, data, start, j, end)
  {
    FieldFacts(s);
    FieldFinishes(Gather(s, data[i..j]));
    if i < j {
      hide Valid, OnTrack, Gather, Finish, Gathered, Need;
      TrackGather(s0, s, data, start, i, j, end);
    } else {
      GatherNothing(s, data[i..j]);
      hide Valid, OnTrack, Gather, Finish, Gathered, Need;
      TrackSettle(s0, s, data, start, i, end);
    }
  }

  lemma FieldFinishes(g: Snapshot)
    requires g.status in {ServiceName, FuncName, ParamString}
    ensures Finish(g).events == []
  {
  }

  lemma GatherNothing(s: Snapshot, bs: seq<byte>)
    requires Gathers(s.status) && bs == []
    ensures Gather(s, bs) == s
  {
    assert Gathered(s) + [] == Gathered(s);
  }

  lemma TrackWaiting(s0: Snapshot, s: Snapshot, data: seq<byte>, start: nat, end: nat)
    requires Valid(s0) && start <= end <= |data| && OnTrack(s0, s, data, start, end, end)
    ensures Parsed(s0, data[start..end], end - start, WAITING, s)
  {
    assert data[end..end] == [];
  }

  /** What the states between two bytes promise about the fields that the parser reads. */
  lemma FieldFacts(s: Snapshot)
    requires Valid(s)
    ensures s.status in {RequestId, ParamLen} ==> |s.buffer| < Need(s)
    ensures s.status in {ServiceName, FuncName} ==> |s.buffer| == 1
    ensures s.status == ParamString ==> |s.buffer| == 4
    ensures Gathers(s.status) ==> |Gathered(s)| < Need(s) || (Need(s) == 0 && Gathered(s) == [])
    ensures s.status in {FrameType, ErrorCode, ServiceLen, FuncLen} ==> s.buffer == []
    ensures s.status == Sob ==> s == FRESH.(status := Sob)
    ensures s.status == Soa ==> s == FRESH
    ensures s.status == ParamLen ==> s.params == []
    ensures s.status == ServiceLen ==> s.service == []
    ensures s.status == FuncLen ==> s.func == []
  {
  }

  lemma NeedOf(s: Snapshot)
    requires s.status in {ServiceName, FuncName} ==> |s.buffer| == 1
    ensures s.status == ServiceName ==> Gathered(s) == s.service && Need(s) == s.buffer[0]
    ensures s.status == FuncName ==> Gathered(s) == s.func && Need(s) == s.buffer[0]
    ensures s.status == ParamString ==> Gathered(s) == s.params && Need(s) == FromBe(s.buffer)
  {
  }

  /** A variable-length field in terms of the fields of the context. */
  lemma FieldValues(s: Snapshot, bs: seq<byte>)
    requires s.status in {ServiceName, FuncName, ParamString}
    requires s.status != ParamString ==> |s.buffer| == 1
    ensures s.status == ServiceName ==>
      && Gathered(s) == s.service && Need(s) == s.buffer[0] && Gather(s, bs) == s.(service := s.service + bs)
      && Finish(Gather(s, bs)).next == s.(service := s.service + bs, buffer := [], status := FuncLen)
    ensures s.status == FuncName ==>
      && Gathered(s) == s.func && Need(s) == s.buffer[0] && Gather(s, bs) == s.(func := s.func + bs)
      && Finish(Gather(s, bs)).next == s.(func := s.func + bs, buffer := [], status := ParamLen)
    ensures s.status == ParamString ==>
      && Gathered(s) == s.params && Need(s) == FromBe(s.buffer) && Gather(s, bs) == s.(params := s.params + bs)
      && Finish(Gather(s, bs)).next == s.(params := s.params + bs, buffer := [], status := Eob)
  {
  }

  /** A length byte in terms of the fields of the context. */
  lemma LengthValues(s: Snapshot, b: byte)
    requires s.status in {ServiceLen, FuncLen}
    ensures s.status == ServiceLen ==> StepPlain(s, b) == Outcome(s.(service := [], buffer := [b], status := ServiceName), [])
    ensures s.status == FuncLen ==> StepPlain(s, b) == Outcome(s.(func := [], buffer := [b], status := FuncName), [])
  {
  }

  /** The two closing bytes in terms of the fields of the context. */
  lemma EndValues(s: Snapshot, b: byte)
    requires s.status in {Eob, Eoc}
    ensures s.status == Eob && b == MAGIC1 ==> StepPlain(s, b) == Outcome(s.(status := Eoc), [])
    ensures b != (if s.status == Eob then MAGIC1 else MAGIC2) ==> StepPlain(s, b) == Outcome(Restart(b), [Error])
  {
  }

  lemma TrackStart(s0: Snapshot, data: seq<byte>, start: nat, end: nat)
    requires Valid(s0) && start <= end <= |data|
    ensures OnTrack(s0, s0, data, start, start, end)
  {
  }

  /**
   * One turn of the parser's loop, from `i` in state `s` to `j` in state `t`: either the
   * parser goes on, closer to its end, or it returns what it promised.
   */
  ghost predicate Turned(s0: Snapshot, s: Snapshot, data: seq<byte>, start: nat, i: nat, j: nat, end: nat,
                         stop: bool, result: ParseResult, t: Snapshot)
    requires Valid(s0) && start <= i <= j <= end <= |data|
  {
    && (s.status == Soa ==> j > i)
    && if stop then
         && Parsed(s0, data[start..end], j - start, result, t)
         && (j > i || result == ERROR)
       else
         && result == WAITING
         && OnTrack(s0, t, data, start, j, end)
         && (j > i || Rank(t.status) < Rank(s.status))
  }

  /** The search for the first magic byte (`memchr`). */
  method ParseStart(ghost s0: Snapshot, data: seq<byte>, ghost start: nat, i: nat, end: nat, context: RpcContext)
    returns (j: nat, stop: bool)
    requires Valid(s0) && start <= i < end <= |data|
    requires OnTrack(s0, context.Snap(), data, start, i, end) && context.result == WAITING
    requires context.status == Soa
    modifies context
    ensures i <= j <= end
    ensures Turned(s0, old(context.Snap()), data, start, i, j, end, stop, context.result, context.Snap())
  {
    ghost var s := context.Snap();
    assert Valid(s);
    FieldFacts(s);
    hide Valid, OnTrack, Parsed, Run, Finish, Gather, Gathered, Need;
    j, stop := i, false;
    var p := i;
    while p < end && data[p] != MAGIC0
      invariant i <= p <= end && context.Snap() == s && context.result == WAITING
      invariant OnTrack(s0, s, data, start, p, end)
    {
      TrackPlain(s0, s, data, start, p, end);
      p := p + 1;
    }
    if p == end {
      j := end;
      stop := true;
      TrackWaiting(s0, s, data, start, end);
    } else {
      j := p + 1;
      context.status := Sob;
      TrackPlain(s0, s, data, start, p, end);
    }
  }

  /** The eight bytes of the request id. */
  method ParseRequestId(ghost s0: Snapshot, data: seq<byte>, ghost start: nat, i: nat, end: nat, context: RpcContext)
    returns (j: nat, stop: bool)
    requires Valid(s0) && start <= i < end <= |data|
    requires OnTrack(s0, context.Snap(), data, start, i, end) && context.result == WAITING
    requires context.status == RequestId
    modifies context
    ensures i <= j <= end
    ensures Turned(s0, old(context.Snap()), data, start, i, j, end, stop, context.result, context.Snap())
  {
    ghost var s := context.Snap();
    assert Valid(s);
    FieldFacts(s);
    hide Valid, OnTrack, Parsed, Run, StepPlain;
    j, stop := i, false;
    var full;
    j, full := context.ReadFixed(8, data, i, end);
    TrackGather(s0, s, data, start, i, j, end);
    if !full {
      stop := true;
      TrackWaiting(s0, context.Snap(), data, start, end);
      return;
    }
    var id := ReadBe(context.buffer);
    if id == 0 {
      context.SetError();
      stop := true;
      return;
    }
    context.requestId := id;
    context.buffer := [];
    context.status := ErrorCode;
  }

  /** The four bytes of the parameter length. */
  method ParseParamLen(ghost s0: Snapshot, data: seq<byte>, ghost start: nat, i: nat, end: nat, context: RpcContext)
    returns (j: nat, stop: bool)
    requires Valid(s0) && start <= i < end <= |data|
    requires OnTrack(s0, context.Snap(), data, start, i, end) && context.result == WAITING
    requires context.status == ParamLen
    modifies context
    ensures i <= j <= end
    ensures Turned(s0, old(context.Snap()), data, start, i, j, end, stop, context.result, context.Snap())
  {
    ghost var s := context.Snap();
    assert Valid(s);
    FieldFacts(s);
    hide Valid, OnTrack, Parsed, Run, StepPlain;
    j, stop := i, false;
    var full;
    j, full := context.ReadFixed(4, data, i, end);
    TrackGather(s0, s, data, start, i, j, end);
    if !full {
      stop := true;
      TrackWaiting(s0, context.Snap(), data, start, end);
      return;
    }
    context.params := [];
    context.status := ParamString;
  }

  /** The service name. */
  method ParseServiceName(ghost s0: Snapshot, data: seq<byte>, ghost start: nat, i: nat, end: nat, context: RpcContext)
    returns (j: nat, stop: bool)
    requires Valid(s0) && start <= i < end <= |data|
    requires OnTrack(s0, context.Snap(), data, start, i, end) && context.result == WAITING
    requires context.status == ServiceName
    modifies context
    ensures i <= j <= end
    ensures Turned(s0, old(context.Snap()), data, start, i, j, end, stop, context.result, context.Snap())
  {
    ghost var s := context.Snap();
    assert Valid(s);
    FieldFacts(s);
    NeedOf(s);
    hide Valid, OnTrack, Parsed, Run, StepPlain, Gather, Finish, Gathered, Need, FromBe;
    j, stop := i, false;
    if context.buffer == [] {
      assert false;
    }
    var len := context.buffer[0];
    if |context.serviceName| > len {
      assert false;
    }
    var full;
    context.serviceName, j, full := ReadVar(len, context.serviceName, data, i, end);
    FieldValues(s, data[i..j]);
    TrackField(s0, s, data, start, i, j, end);
    if !full {
      context.result := WAITING;
      stop := true;
      TrackWaiting(s0, context.Snap(), data, start, end);
      return;
    }
    context.buffer := [];
    context.status := FuncLen;
  }

  /** The function name. */
  method ParseFuncName(ghost s0: Snapshot, data: seq<byte>, ghost start: nat, i: nat, end: nat, context: RpcContext)
    returns (j: nat, stop: bool)
    requires Valid(s0) && start <= i < end <= |data|
    requires OnTrack(s0, context.Snap(), data, start, i, end) && context.result == WAITING
    requires context.status == FuncName
    modifies context
    ensures i <= j <= end
    ensures Turned(s0, old(context.Snap()), data, start, i, j, end, stop, context.result, context.Snap())
  {
    ghost var s := context.Snap();
    assert Valid(s);
    FieldFacts(s);
    NeedOf(s);
    hide Valid, OnTrack, Parsed, Run, StepPlain, Gather, Finish, Gathered, Need, FromBe;
    j, stop := i, false;
    if context.buffer == [] {
      assert false;
    }
    var len := context.buffer[0];
    if |context.funcName| > len {
      assert false;
    }
    var full;
    context.funcName, j, full := ReadVar(len, context.funcName, data, i, end);
    FieldValues(s, data[i..j]);
    TrackField(s0, s, data, start, i, j, end);
    if !full {
      context.result := WAITING;
      stop := true;
      TrackWaiting(s0, context.Snap(), data, start, end);
      return;
    }
    context.buffer := [];
    context.status := ParamLen;
  }

  /** The parameters. */
  method ParseParamString(ghost s0: Snapshot, data: seq<byte>, ghost start: nat, i: nat, end: nat, context: RpcContext)
    returns (j: nat, stop: bool)
    requires Valid(s0) && start <= i < end <= |data|
    requires OnTrack(s0, context.Snap(), data, start, i, end) && context.result == WAITING
    requires context.status == ParamString
    modifies context
    ensures i <= j <= end
    ensures Turned(s0, old(context.Snap()), data, start, i, j, end, stop, context.result, context.Snap())
  {
    ghost var s := context.Snap();
    assert Valid(s);
    FieldFacts(s);
    NeedOf(s);
    hide Valid, OnTrack, Parsed, Run, StepPlain, Gather, Finish, Gathered, Need, FromBe;
    j, stop := i, false;
    if |context.buffer| < 4 {
      assert false;
    }
    var len := ReadBe(context.buffer);
    if |context.params| > len {
      assert false;
    }
    var full;
    context.params, j, full := ReadVar(len, context.params, data, i, end);
    FieldValues(s, data[i..j]);
    TrackField(s0, s, data, start, i, j, end);
    if !full {
      context.result := WAITING;
      stop := true;
      TrackWaiting(s0, context.Snap(), data, start, end);
      return;
    }
    context.buffer := [];
    context.status := Eob;
  }

  /** The fixed bytes of the header. */
  method ParseHeader(ghost s0: Snapshot, data: seq<byte>, ghost start: nat, i: nat, end: nat, context: RpcContext)
    returns (j: nat, stop: bool)
    requires Valid(s0) && start <= i < end <= |data|
    requires OnTrack(s0, context.Snap(), data, start, i, end) && context.result == WAITING
    requires context.status in {Sob, FrameType, ErrorCode}
    modifies context
    ensures i <= j <= end
    ensures Turned(s0, old(context.Snap()), data, start, i, j, end, stop, context.result, context.Snap())
  {
    ghost var s := context.Snap();
    assert Valid(s);
    FieldFacts(s);
    hide Valid, OnTrack, Parsed, Run, Finish, Gather, Gathered, Need;
    j, stop := i, false;
    match context.status
    case Sob =>
      if data[i] != MAGIC1 {
        context.SetError();
        stop := true;
        TrackPlainError(s0, s, data, start, i, i, end);
      } else {
        j := i + 1;
        context.ResetMessage();
        context.status := FrameType;
        TrackPlain(s0, s, data, start, i, end);
      }
    case FrameType =>
      var kind := data[i];
      j := i + 1;
      if kind != REQUEST {
        context.SetError();
        stop := true;
        TrackPlainError(s0, s, data, start, i, j, end);
      } else {
        context.status := RequestId;
        TrackPlain(s0, s, data, start, i, end);
      }
    case ErrorCode =>
      var code := data[i];
      j := i + 1;
      if code != 0 {
        context.SetError();
        stop := true;
        TrackPlainError(s0, s, data, start, i, j, end);
      } else {
        context.status := ServiceLen;
        TrackPlain(s0, s, data, start, i, end);
      }
  }

  /** The one-byte length of the service name. */
  method ParseServiceLen(ghost s0: Snapshot, data: seq<byte>, ghost start: nat, i: nat, end: nat, context: RpcContext)
    returns (j: nat, stop: bool)
    requires Valid(s0) && start <= i < end <= |data|
    requires OnTrack(s0, context.Snap(), data, start, i, end) && context.result == WAITING
    requires context.status == ServiceLen
    modifies context
    ensures i <= j <= end
    ensures Turned(s0, old(context.Snap()), data, start, i, j, end, stop, context.result, context.Snap())
  {
    ghost var s := context.Snap();
    assert Valid(s);
    FieldFacts(s);
    LengthValues(s, data[i]);
    hide Valid, OnTrack, Parsed, Run, Finish, Gather, Gathered, Need, StepPlain;
    stop := false;
    var len := data[i];
    j := i + 1;
    context.serviceName := [];
    context.buffer := [];
    context.buffer := context.buffer + [len];
    assert context.buffer == [len];
    context.status := ServiceName;
    TrackPlain(s0, s, data, start, i, end);
  }

  /** The one-byte length of the function name. */
  method ParseFuncLen(ghost s0: Snapshot, data: seq<byte>, ghost start: nat, i: nat, end: nat, context: RpcContext)
    returns (j: nat, stop: bool)
    requires Valid(s0) && start <= i < end <= |data|
    requires OnTrack(s0, context.Snap(), data, start, i, end) && context.result == WAITING
    requires context.status == FuncLen
    modifies context
    ensures i <= j <= end
    ensures Turned(s0, old(context.Snap()), data, start, i, j, end, stop, context.result, context.Snap())
  {
    ghost var s := context.Snap();
    assert Valid(s);
    FieldFacts(s);
    LengthValues(s, data[i]);
    hide Valid, OnTrack, Parsed, Run, Finish, Gather, Gathered, Need, StepPlain;
    stop := false;
    var len := data[i];
    j := i + 1;
    context.funcName := [];
    context.buffer := [];
    context.buffer := context.buffer + [len];
    assert context.buffer == [len];
    context.status := FuncName;
    TrackPlain(s0, s, data, start, i, end);
  }

  /** The two closing bytes. */
  method ParseEnd(ghost s0: Snapshot, data: seq<byte>, ghost start: nat, i: nat, end: nat, context: RpcContext)
    returns (j: nat, stop: bool)
    requires Valid(s0) && start <= i < end <= |data|
    requires OnTrack(s0, context.Snap(), data, start, i, end) && context.result == WAITING
    requires context.status in {Eob, Eoc}
    modifies context
    ensures i <= j <= end
    ensures Turned(s0, old(context.Snap()), data, start, i, j, end, stop, context.result, context.Snap())
  {
    ghost var s := context.Snap();
    assert Valid(s);
    FieldFacts(s);
    EndValues(s, data[i]);
    hide Valid, OnTrack, Parsed, Run, Finish, Gather, Gathered, Need, StepPlain, Restart;
    j, stop := i, false;
    match context.status
    case Eob =>
      if data[i] != MAGIC1 {
        context.SetError();
        stop := true;
        TrackPlainError(s0, s, data, start, i, i, end);
      } else {
        j := i + 1;
        context.status := Eoc;
        TrackPlain(s0, s, data, start, i, end);
      }
    case Eoc =>
      if data[i] != MAGIC2 {
        context.SetError();
        stop := true;
        TrackPlainError(s0, s, data, start, i, i, end);
      } else {
        j := i + 1;
        context.status := Soa;
        context.result := COMPLETE;
        stop := true;
        TrackComplete(s0, s, context.Snap(), data, start, i, end);
      }
  }

  /** One turn of the parser's loop; `stop` where the source returns. */
  method ParseStatus(ghost s0: Snapshot, data: seq<byte>, ghost start: nat, i: nat, end: nat, context: RpcContext)
    returns (j: nat, stop: bool)
    requires Valid(s0) && start <= i < end <= |data|
    requires OnTrack(s0, context.Snap(), data, start, i, end) && context.result == WAITING
    modifies context
    ensures i <= j <= end
    ensures Turned(s0, old(context.Snap()), data, start, i, j, end, stop, context.result, context.Snap())
  {
    j, stop := i, false;
    hide *;
    match context.status
    case Soa =>
      j, stop := ParseStart(s0, data, start, i, end, context);
    case Sob | FrameType | ErrorCode =>
      j, stop := ParseHeader(s0, data, start, i, end, context);
    case RequestId =>
      j, stop := ParseRequestId(s0, data, start, i, end, context);
    case ServiceLen =>
      j, stop := ParseServiceLen(s0, data, start, i, end, context);
    case FuncLen =>
      j, stop := ParseFuncLen(s0, data, start, i, end, context);
    case ServiceName =>
      j, stop := ParseServiceName(s0, data, start, i, end, context);
    case FuncName =>
      j, stop := ParseFuncName(s0, data, start, i, end, context);
    case ParamLen =>
      j, stop := ParseParamLen(s0, data, start, i, end, context);
    case ParamString =>
      j, stop := ParseParamString(s0, data, start, i, end, context);
    case Eob | Eoc =>
      j, stop := ParseEnd(s0, data, start, i, end, context);
  }

  /** `parse`: consumes what it can of `data[start..end]`, as the context says. */
  method Parse(data: seq<byte>, start: nat, end: nat, context: RpcContext) returns (parsed: nat)
    requires end <= |data| && Valid(context.Snap())
    modifies context
    ensures start >= end ==> parsed == 0 && context.result == WAITING && context.Snap() == old(context.Snap())
    ensures start < end ==>
      && Parsed(old(context.Snap()), data[start..end], parsed, context.result, context.Snap())
      && (parsed > 0 || (context.result == ERROR && old(context.status) != Soa))
  {
    hide Valid, OnTrack, Parsed, Run, Finish, Gather, Gathered, Need, StepPlain;
    parsed := 0;
    ghost var s0 := context.Snap();
    if start >= end {
      context.result := WAITING;
      return;
    }
    TrackStart(s0, data, start, end);
    var i := start;
    context.result := WAITING;
    while i < end
      invariant start <= i <= end
      invariant context.result == WAITING
      invariant OnTrack(s0, context.Snap(), data, start, i, end)
      invariant i > start || (s0.status == Soa ==> context.status == Soa)
      decreases end - i, Rank(context.status)
    {
      var stop;
      i, stop := ParseStatus(s0, data, start, i, end, context);
      if stop {
        parsed := i - start;
        return;
      }
    }
    parsed := i - start;
    context.result := WAITING;
    TrackWaiting(s0, context.Snap(), data, start, end);
  }

  /** The event a finished context hands to the thread pool. */
  function EventOf(result: ParseResult, s: Snapshot): Event
    requires result != WAITING
  {
    if result == ERROR then Error else Complete(Message(s.id, s.service, s.func, s.params))
  }

  /** What a connection of the server keeps between two reads. */
  class RpcSession {
    const context: RpcContext
    /** The contexts put into the thread pool so far, in order. */
    var dispatched: seq<Event>

    ghost predicate Ready()
      reads this, context
    {
      Valid(context.Snap()) && context.result == WAITING
    }

    constructor ()
      ensures Ready() && context.Snap() == FRESH && dispatched == [] && fresh(context)
    {
      var c := new RpcContext();
      context := c;
      dispatched := [];
      new;
      FreshIsValid();
    }

    /**
     * The read callback on `size` bytes of `data`: the whole chunk is consumed, and the
     * tasks and the context are those of the one-byte automaton on these bytes.
     */
    method OnData(data: seq<byte>, size: nat) returns (consumed: nat)
      requires Ready() && size <= |data|
      modifies this, context
      ensures Ready() && consumed == size
      ensures context.Snap() == Run(old(context.Snap()), data[..size]).next
      ensures dispatched == old(dispatched) + Run(old(context.Snap()), data[..size]).events
    {
      ThenParts(dispatched, context.Snap(), data[..size]);
      hide Valid, Run, Then, Parsed, Step, Owes, EventOf;
      ghost var total := Then(dispatched, Run(context.Snap(), data[..size]));
      StartOwing(dispatched, context.Snap(), data, size);
      if size == 0 {
        FinishOwing(dispatched, context.Snap(), data, size, total);
        return size;
      }
      var offset := 0;
      while offset < size
        invariant offset <= size && context.result == WAITING
        invariant Owes(dispatched, context.Snap(), data, offset, size, total)
        decreases size - offset, context.status != Soa
      {
        var waiting;
        offset, waiting := Turn(data, offset, size, total);
        if waiting {
          FinishOwing(dispatched, context.Snap(), data, size, total);
          return offset;
        }
      }
      FinishOwing(dispatched, context.Snap(), data, size, total);
      return offset;
    }

    /** One turn of the driver's loop; a waiting parser has consumed the whole chunk. */
    method Turn(data: seq<byte>, offset: nat, size: nat, ghost total: Outcome) returns (next: nat, waiting: bool)
      requires offset < size <= |data| && context.result == WAITING
      requires Owes(dispatched, context.Snap(), data, offset, size, total)
      modifies this, context
      ensures offset <= next <= size && context.result == WAITING
      ensures Owes(dispatched, context.Snap(), data, next, size, total)
      ensures offset < next || (old(context.status) != Soa && context.status == Soa)
      ensures waiting ==> next == size
    {
      hide Valid, Run, Then, Parsed, Step, Owes;
      ghost var s := context.Snap();
      OwesValid(dispatched, s, data, offset, size, total);
      var parsed := Parse(data, offset, size, context);
      PaysOff(dispatched, s, data, offset, size, total, parsed, context.result, context.Snap());
      next, waiting := offset + parsed, false;
      if context.result == COMPLETE || context.result == ERROR {
        var event := context.Take();
        dispatched := dispatched + [event];
        return;
      }
      if context.result == WAITING {
        waiting := true;
        return;
      }
      assert false;
    }
  }

  /** The driver's loop invariant: what was sent and what is still to be read make up `total`. */
  ghost predicate Owes(sent: seq<Event>, s: Snapshot, data: seq<byte>, offset: nat, size: nat, total: Outcome)
    requires offset <= size <= |data|
  {
    Valid(s) && total == Then(sent, Run(s, data[offset..size]))
  }

  lemma StartOwing(sent: seq<Event>, s: Snapshot, data: seq<byte>, size: nat)
    requires Valid(s) && size <= |data|
    ensures Owes(sent, s, data, 0, size, Then(sent, Run(s, data[..size])))
  {
    assert data[0..size] == data[..size];
  }

  lemma OwesValid(sent: seq<Event>, s: Snapshot, data: seq<byte>, offset: nat, size: nat, total: Outcome)
    requires offset <= size <= |data| && Owes(sent, s, data, offset, size, total)
    ensures Valid(s)
  {
  }

  lemma FinishOwing(sent: seq<Event>, s: Snapshot, data: seq<byte>, size: nat, total: Outcome)
    requires size <= |data| && Owes(sent, s, data, size, size, total)
    ensures Valid(s) && total == Outcome(s, sent)
  {
    assert data[size..size] == [];
    assert sent + [] == sent;
  }

  lemma PaysOff(sent: seq<Event>, s: Snapshot, data: seq<byte>, offset: nat, size: nat, total: Outcome,
                parsed: nat, result: ParseResult, t: Snapshot)
    requires offset < size <= |data| && Owes(sent, s, data, offset, size, total) && Valid(s)
    requires Parsed(s, data[offset..size], parsed, result, t)
    ensures offset + parsed <= size
    ensures result == WAITING ==> parsed == size - offset && Owes(sent, t, data, offset + parsed, size, total)
    ensures result != WAITING ==> Owes(sent + [EventOf(result, t)], FRESH, data, offset + parsed, size, total)
  {
    hide Valid, Run;
    FreshIsValid();
    assert data[offset..size][parsed..] == data[offset + parsed..size];
    if result == WAITING {
      assert data[size..size] == [];
      EmptyRun(t, s, data[offset..size]);
      assert sent + [] == sent;
    } else {
      Delivered(sent, EventOf(result, t), Run(FRESH, data[offset + parsed..size]));
    }
  }

  lemma EmptyRun(t: Snapshot, s: Snapshot, bs: seq<byte>)
    requires Valid(s) && Run(s, bs).next == t
    ensures Valid(t) && Run(t, []) == Outcome(t, [])
  {
  }

  lemma FreshIsValid()
    ensures Valid(FRESH)
  {
    Widths();
  }

  lemma ThenParts(sent: seq<Event>, s: Snapshot, bs: seq<byte>)
    requires Valid(s)
    ensures Then(sent, Run(s, bs)).next == Run(s, bs).next
    ensures Then(sent, Run(s, bs)).events == sent + Run(s, bs).events
  {
  }

  lemma Delivered(sent: seq<Event>, event: Event, r: Outcome)
    ensures Then(sent, Then([event], r)) == Then(sent + [event], r)
  {
  }
}
