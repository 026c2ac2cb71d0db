/** From every reachable state the RPC server can answer everything that it has read. */
module RpcProgress {
  import opened Bytes
  import opened Common
  import opened RpcAutomaton
  import opened RpcResponse
  import opened WriteQueue
  import opened RpcServer
  import opened Draining
  import Net = ConnectionSpec

  /** A run that reads nothing. */
  ghost predicate Leads(s: State, actions: seq<Action>, t: State) {
    CanRun(s, actions) && RunOf(s, actions) == t && forall i :: 0 <= i < |actions| ==> !actions[i].Read?
  }

  lemma LeadsNowhere(s: State)
    ensures Leads(s, [], s)
  {
  }

  lemma {:induction false} LeadsOn(s: State, a: Action, t: State, rest: seq<Action>, u: State)
    requires Possible(s, a) && !a.Read? && t == Next(s, a) && Leads(t, rest, u)
    ensures Leads(s, [a] + rest, u)
  {
    hide Possible, Next;
    assert ([a] + rest)[1..] == rest;
  }

  lemma {:induction false} LeadsFurther(s: State, a: seq<Action>, t: State, b: seq<Action>, u: State)
    requires Leads(s, a, t) && Leads(t, b, u)
    ensures Leads(s, a + b, u)
    decreases |a|
  {
    hide Possible, Next;
    if a == [] {
      assert a + b == b;
    } else {
      var n := Next(s, a[0]);
      assert forall i :: 0 <= i < |a[1..]| ==> a[1..][i] == a[i + 1];
      LeadsFurther(n, a[1..], t, b, u);
      assert a + b == [a[0]] + (a[1..] + b);
      LeadsOn(s, a[0], n, a[1..] + b, u);
    }
  }

  /** The server is up: it has a worker, the connection is open, and whatever is posted can be queued. */
  ghost predicate Up(s: State) {
    && Inv(s) && s.conn.live && Pending(s.conn.queue) && |s.working| > 0
    && forall a :: a in s.posted ==> |FrameBytes(a.frame)| <= Net.INT_MAX
  }

  // ----- the loop flushes the queue -----

  lemma {:induction false} SendStep(s: State)
    requires Up(s) && s.conn.queue != []
    ensures var a := Handler(Net.HandleWrite(Net.Sent(|Offered(s.conn.queue)|)));
      && Possible(s, a) && Up(Next(s, a)) && Next(s, a) == s.(conn := Next(s, a).conn)
      && |Unsent(Next(s, a).conn.queue)| < |Unsent(s.conn.queue)|
  {
    PendingHasNoBlanks(s.conn.queue);
    NoBlanksDrain(s.conn.queue);
    assert Net.Inv(s.conn);
    var n := |Offered(s.conn.queue)|;
    var a := Handler(Net.HandleWrite(Net.Sent(n)));
    AdvanceKeepsPending(s.conn.queue, n);
    SendAllOffered(s.conn);
    SentQueue(s.conn, n);
    hide Net.Inv, Net.Possible, Net.Apply, Advance, Offered, Unsent, Drainable, Pending, FrameBytes, Inv;
    StepKeepsInv(s, a);
  }

  lemma SentQueue(c: Net.Conn, n: nat)
    requires n == |Offered(c.queue)| && n > 0
    ensures Net.Apply(c, Net.HandleWrite(Net.Sent(n))).queue == Advance(c.queue, n)
  {
    hide Advance, Offered, Net.Callbacks, Net.DrainedEpoll;
  }

  lemma PendingHasNoBlanks(q: seq<WriteMeta>)
    requires Pending(q)
    ensures forall i :: 0 <= i < |q| ==> !Blank(q, i)
  {
  }

  lemma {:induction false} Flush(s: State) returns (actions: seq<Action>, t: State)
    requires Up(s)
    ensures Leads(s, actions, t) && Up(t) && t == s.(conn := t.conn) && t.conn.queue == []
    decreases |Unsent(s.conn.queue)|
  {
    if s.conn.queue == [] {
      actions, t := [], s;
      LeadsNowhere(s);
    } else {
      SendStep(s);
      var a := Handler(Net.HandleWrite(Net.Sent(|Offered(s.conn.queue)|)));
      var n := Next(s, a);
      hide Up, Possible, Next, Leads, Unsent, Offered;
      var rest;
      rest, t := Flush(n);
      LeadsOn(s, a, n, rest, t);
      actions := [a] + rest;
    }
  }

  // ----- workers and loop go on -----

  function Busy(ws: seq<Option<nat>>): nat {
    if ws == [] then 0 else (if ws[0].Some? then 1 else 0) + Busy(ws[1..])
  }

  lemma {:induction false} BusyUpdate(ws: seq<Option<nat>>, w: nat, o: Option<nat>)
    requires w < |ws|
    ensures Busy(ws[w := o]) == Busy(ws) - (if ws[w].Some? then 1 else 0) + (if o.Some? then 1 else 0)
  {
    if w == 0 {
      assert ws[0 := o][1..] == ws[1..];
    } else {
      assert ws[w := o][1..] == ws[1..][w - 1 := o];
      BusyUpdate(ws[1..], w - 1, o);
    }
  }

  lemma {:induction false} NobodyBusy(ws: seq<Option<nat>>)
    ensures Busy(ws) == 0 <==> forall w :: 0 <= w < |ws| ==> ws[w] == None
  {
    if ws != [] {
      NobodyBusy(ws[1..]);
    }
  }

  /** What is left to do before everything read has been written. */
  function Load(s: State): nat {
    3 * |s.tasks| + 2 * Busy(s.working) + |s.posted|
  }

  /** An empty queue takes any buffer whose length fits in an `int`. */
  lemma CanQueue(c: Net.Conn, m: WriteMeta)
    requires Net.Inv(c) && c.live && c.queue == [] && m.offset == 0 && |m.buffer| <= Net.INT_MAX
    ensures Net.Possible(c, Net.Write([m]))
    ensures var d := Net.Apply(c, Net.Write([m])); d.queue == [m] && d.live
  {
    assert Net.BytesOk(c) && Unsent([]) == [];
    assert [m][1..] == [] && AllBytes([m]) == m.buffer + [] && [] + [m] == [m];
    hide AllBytes, Unsent, Net.BytesOk, Net.CallbacksOk, Net.LevelsOk, Net.EventsOk, Net.ReportsOk;
  }

  lemma {:induction false} RunPostedFields(s: State)
    requires Net.Inv(s.conn) && s.conn.live && s.conn.queue == [] && s.posted != []
    requires |FrameBytes(s.posted[0].frame)| <= Net.INT_MAX
    ensures Possible(s, RunPosted)
    ensures var t := Next(s, RunPosted);
      && t == s.(posted := s.posted[1..], answered := t.answered, conn := t.conn)
      && t.conn.live && Pending(t.conn.queue)
  {
    hide Net.Inv, Net.Apply, Net.Possible;
    CanQueue(s.conn, WriteMeta(|s.answered|, FrameBytes(s.posted[0].frame), 0));
  }

  lemma {:induction false} RunPostedStep(s: State)
    requires Up(s) && s.conn.queue == [] && s.posted != []
    ensures Possible(s, RunPosted) && Up(Next(s, RunPosted)) && Load(Next(s, RunPosted)) < Load(s)
    ensures Next(s, RunPosted).events == s.events
  {
    assert s.posted[0] in s.posted && Net.Inv(s.conn);
    hide Inv, Net.Inv, Possible, Next, FrameBytes, Busy, Pending;
    RunPostedFields(s);
    StepKeepsInv(s, RunPosted);
    assert forall a :: a in s.posted[1..] ==> a in s.posted;
  }

  lemma FinishFields(s: State, w: nat)
    requires Possible(s, Finish(w, ThrewOther))
    ensures var t := Next(s, Finish(w, ThrewOther));
      && t == s.(working := s.working[w := None], posted := t.posted)
      && |t.posted| == |s.posted| + 1
      && forall a :: a in t.posted ==> a in s.posted || |FrameBytes(a.frame)| == 18
  {
    var f := Reply(s.handlers, s.events[s.working[w].value], ThrewOther);
    assert |FrameBytes(f)| == 18;
    hide FrameBytes, Reply;
  }

  lemma {:induction false} FinishStep(s: State, w: nat)
    requires Up(s) && w < |s.working| && s.working[w].Some?
    ensures var a := Finish(w, ThrewOther);
      Possible(s, a) && Up(Next(s, a)) && Load(Next(s, a)) < Load(s) && Next(s, a).events == s.events
  {
    var a := Finish(w, ThrewOther);
    assert Once(s);
    hide Inv, Once, Busy, FrameBytes, Pending;
    InHandIsRead(s, w);
    assert Possible(s, a);
    hide Possible;
    FinishFields(s, w);
    StepKeepsInv(s, a);
    BusyUpdate(s.working, w, None);
    hide Next;
  }

  /** What a worker has in hand is one of the parse results. */
  lemma {:induction false} InHandIsRead(s: State, w: nat)
    requires Once(s) && w < |s.working| && s.working[w].Some?
    ensures s.working[w].value < |s.events|
  {
    var x := s.working[w].value;
    InHandUpdate(s.working, w, None);
    OneOf(0, |s.events|, x);
    assert InHand(s.working)[x] >= 1;
    hide InHand, Asked, Numbers;
  }

  lemma {:induction false} TakeStep(s: State)
    requires Up(s) && s.tasks != [] && s.working[0] == None
    ensures Possible(s, Take(0)) && Up(Next(s, Take(0))) && Load(Next(s, Take(0))) < Load(s)
    ensures Next(s, Take(0)).events == s.events
  {
    StepKeepsInv(s, Take(0));
    BusyUpdate(s.working, 0, Some(s.tasks[0]));
    hide Inv, Busy, FrameBytes;
  }

  lemma {:induction false} HelpfulStep(s: State) returns (a: Action)
    requires Up(s) && s.conn.queue == [] && !Idle(s)
    ensures Possible(s, a) && !a.Read? && Up(Next(s, a)) && Load(Next(s, a)) < Load(s) && Next(s, a).events == s.events
  {
    if s.posted != [] {
      a := RunPosted;
      RunPostedStep(s);
    } else if w :| 0 <= w < |s.working| && s.working[w].Some? {
      a := Finish(w, ThrewOther);
      FinishStep(s, w);
    } else {
      a := Take(0);
      TakeStep(s);
    }
  }

  /**
   * Progress: from every reachable state with a worker and an open connection there is a
   * run that reads nothing more, after which every request read so far has its response
   * and every response has been sent to the last byte.
   */
  lemma {:induction false} EverythingCanBeAnswered(s: State) returns (actions: seq<Action>, t: State)
    requires Up(s)
    ensures Leads(s, actions, t) && Inv(t) && Idle(t) && t.events == s.events
    ensures |t.answered| == |s.events| && t.conn.live && t.conn.sent == FramesBytes(Frames(t.answered))
    decreases Load(s)
  {
    var first, u := Flush(s);
    assert Load(u) == Load(s);
    if Idle(u) {
      actions, t := first, u;
      AnsweredCount(t);
      SentIsWholeFrames(t);
    } else {
      var a := HelpfulStep(u);
      var n := Next(u, a);
      hide Up, Possible, Next, Leads, Load, Idle, Inv;
      var rest;
      rest, t := EverythingCanBeAnswered(n);
      LeadsOn(u, a, n, rest, t);
      LeadsFurther(s, first, u, [a] + rest, t);
      actions := first + ([a] + rest);
    }
  }
}
