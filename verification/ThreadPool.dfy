/**
 * The thread pool: workers, submitters and `join`, one locked queue operation or one
 * atomic access a step.  Callbacks do not throw.
 */
module ThreadPool {
  import opened Common

  /** `SpinBlockingQueue`, whose every operation runs under its lock. */
  class SpinBlockingQueue {
    var queue: seq<int>
    var stopped: bool

    constructor ()
      ensures queue == [] && !stopped
    {
      queue, stopped := [], false;
    }

    method Push(item: int)
      modifies this
      ensures stopped == old(stopped)
      ensures queue == Accepted(old(queue), old(stopped), item)
    {
      if stopped {
        return;
      }
      queue := queue + [item];
    }

    /** One turn of `pop` under the lock; `Retry` where the loop goes round again. */
    method PopOnce() returns (r: Popped)
      modifies this
      ensures stopped == old(stopped)
      ensures (r, queue) == PopResult(old(queue), old(stopped))
    {
      if stopped && queue == [] {
        return NoTask;
      }
      if queue != [] {
        var item := queue[0];
        queue := queue[1..];
        return Task(item);
      }
      return Retry;
    }

    method Shutdown()
      modifies this
      ensures stopped && queue == old(queue)
    {
      stopped := true;
    }

    method Empty() returns (r: bool)
      ensures r <==> queue == []
    {
      r := queue == [];
    }
  }

  datatype Popped = Task(item: int) | NoTask | Retry

  /** A closed queue drops what is pushed. */
  function Accepted(queue: seq<int>, stopped: bool, item: int): seq<int> {
    if stopped then queue else queue + [item]
  }

  function PopResult(queue: seq<int>, stopped: bool): (Popped, seq<int>) {
    if queue != [] then (Task(queue[0]), queue[1..]) else (if stopped then NoTask else Retry, queue)
  }

  /** Where a worker is inside `run`. */
  datatype Worker = Popping | Running(task: int) | CameBack | SawJoined | Exited

  /** Where the joining thread is inside `join`. */
  datatype Joiner = NotJoining | ShutDown | WaitingFor(next: nat) | Joined

  datatype State = State(
    queue: seq<int>, stopped: bool, joined: bool,
    workers: seq<Worker>, joiner: Joiner,
    accepted: seq<int>, taken: seq<int>, finished: seq<int>)

  ghost predicate Init(s: State) {
    && s.queue == [] && !s.stopped && !s.joined && s.joiner == NotJoining
    && (forall w :: 0 <= w < |s.workers| ==> s.workers[w] == Popping)
    && s.accepted == [] && s.taken == [] && s.finished == []
  }

  datatype Action =
    | Submit(task: int)
    | Pop(w: nat)
    | Finish(w: nat)
    | LoadJoined(w: nat)
    | CheckEmpty(w: nat)
    | CallShutdown
    | StoreJoined
    | JoinThread

  predicate Enabled(s: State, a: Action) {
    match a
    case Submit(_) => true
    case Pop(w) => w < |s.workers| && s.workers[w].Popping?
    case Finish(w) => w < |s.workers| && s.workers[w].Running?
    case LoadJoined(w) => w < |s.workers| && s.workers[w].CameBack?
    case CheckEmpty(w) => w < |s.workers| && s.workers[w].SawJoined?
    case CallShutdown => s.joiner.NotJoining?
    case StoreJoined => s.joiner.ShutDown?
    case JoinThread =>
      s.joiner.WaitingFor? && (s.joiner.next < |s.workers| ==> s.workers[s.joiner.next].Exited?)
  }

  function Next(s: State, a: Action): State
    requires Enabled(s, a)
  {
    match a
    case Submit(task) =>
      s.(queue := Accepted(s.queue, s.stopped, task),
         accepted := if s.stopped then s.accepted else s.accepted + [task])
    case Pop(w) =>
      var (r, queue) := PopResult(s.queue, s.stopped);
      (match r
       case Task(t) => s.(queue := queue, taken := s.taken + [t], workers := s.workers[w := Running(t)])
       case NoTask => s.(workers := s.workers[w := CameBack])
       case Retry => s)
    case Finish(w) =>
      s.(finished := s.finished + [s.workers[w].task], workers := s.workers[w := Popping])
    case LoadJoined(w) => s.(workers := s.workers[w := if s.joined then SawJoined else Popping])
    case CheckEmpty(w) => s.(workers := s.workers[w := if s.queue == [] then Exited else Popping])
    case CallShutdown => s.(stopped := true, joiner := ShutDown)
    case StoreJoined => s.(joined := true, joiner := WaitingFor(0))
    case JoinThread =>
      s.(joiner := if s.joiner.next < |s.workers| then WaitingFor(s.joiner.next + 1) else Joined)
  }

  function TaskOf(w: Worker): multiset<int> {
    if w.Running? then multiset{w.task} else multiset{}
  }

  /** The tasks that workers are in the middle of. */
  function InHand(workers: seq<Worker>): multiset<int> {
    if workers == [] then multiset{} else TaskOf(workers[0]) + InHand(workers[1..])
  }

  lemma {:induction false} InHandUpdate(workers: seq<Worker>, w: nat, v: Worker)
    requires w < |workers|
    ensures TaskOf(workers[w]) <= InHand(workers)
    ensures InHand(workers[w := v]) == InHand(workers) - TaskOf(workers[w]) + TaskOf(v)
  {
    hide TaskOf;
    var more := workers[w := v];
    if w > 0 {
      assert more[1..] == workers[1..][w - 1 := v];
      InHandUpdate(workers[1..], w - 1, v);
      assert InHand(more) == TaskOf(workers[0]) + InHand(more[1..]);
    } else {
      assert more[1..] == workers[1..];
      assert InHand(more) == TaskOf(v) + InHand(workers[1..]);
    }
  }

  lemma {:induction false} NothingInHand(workers: seq<Worker>)
    requires forall w :: 0 <= w < |workers| ==> !workers[w].Running?
    ensures InHand(workers) == multiset{}
  {
    if workers != [] {
      NothingInHand(workers[1..]);
    }
  }

  /** Tasks leave the queue first in, first out, and each is run by the worker that took it. */
  ghost predicate TasksOk(s: State) {
    && s.accepted == s.taken + s.queue
    && multiset(s.taken) == multiset(s.finished) + InHand(s.workers)
  }

  ghost predicate ControlOk(s: State) {
    // a worker comes back empty-handed only from a closed and empty queue, which stays so
    && (forall w :: 0 <= w < |s.workers| && s.workers[w] in {CameBack, SawJoined, Exited} ==> s.stopped && s.queue == [])
    && (s.joiner.NotJoining? <==> !s.stopped)
    && (s.joined <==> s.joiner.WaitingFor? || s.joiner.Joined?)
    // the joiner has seen these workers exit
    && (s.joiner.WaitingFor? ==>
          s.joiner.next <= |s.workers| && forall w :: 0 <= w < s.joiner.next ==> s.workers[w].Exited?)
    && (s.joiner.Joined? ==> forall w :: 0 <= w < |s.workers| ==> s.workers[w].Exited?)
  }

  ghost predicate Inv(s: State) {
    TasksOk(s) && ControlOk(s)
  }

  lemma {:induction false} InitHasInv(s: State)
    requires Init(s)
    ensures Inv(s)
  {
    NothingInHand(s.workers);
  }

  lemma {:induction false} TakingKeepsTasks(s: State, w: nat)
    requires TasksOk(s) && w < |s.workers| && s.workers[w].Popping? && s.queue != []
    ensures TasksOk(s.(queue := s.queue[1..], taken := s.taken + [s.queue[0]],
                       workers := s.workers[w := Running(s.queue[0])]))
  {
    hide InHand;
    var task := s.queue[0];
    InHandUpdate(s.workers, w, Running(task));
    QueueMoves(s.taken, s.queue);
    OneMore(s.taken, task, multiset(s.finished), InHand(s.workers));
    assert InHand(s.workers[w := Running(task)]) == InHand(s.workers) + multiset{task};
  }

  lemma QueueMoves(taken: seq<int>, queue: seq<int>)
    requires queue != []
    ensures taken + queue == (taken + [queue[0]]) + queue[1..]
  {
  }

  lemma OneMore(taken: seq<int>, task: int, finished: multiset<int>, inHand: multiset<int>)
    requires multiset(taken) == finished + inHand
    ensures multiset(taken + [task]) == finished + (inHand + multiset{task})
  {
  }

  lemma {:induction false} FinishingKeepsTasks(s: State, w: nat)
    requires TasksOk(s) && w < |s.workers| && s.workers[w].Running?
    ensures TasksOk(s.(finished := s.finished + [s.workers[w].task], workers := s.workers[w := Popping]))
  {
    var task := s.workers[w].task;
    InHandUpdate(s.workers, w, Popping);
    hide InHand;
    assert multiset(s.finished + [task]) == multiset(s.finished) + multiset{task};
  }

  lemma {:induction false} IdlingKeepsTasks(s: State, w: nat, v: Worker)
    requires TasksOk(s) && w < |s.workers| && !s.workers[w].Running? && !v.Running?
    ensures TasksOk(s.(workers := s.workers[w := v]))
  {
    InHandUpdate(s.workers, w, v);
    hide InHand;
    assert InHand(s.workers[w := v]) == InHand(s.workers);
  }

  lemma {:induction false} StepKeepsTasks(s: State, a: Action)
    requires TasksOk(s) && Enabled(s, a)
    ensures TasksOk(Next(s, a))
  {
    if a.Pop? && s.queue != [] {
      hide TasksOk;
      TakingKeepsTasks(s, a.w);
    } else if a.Finish? {
      hide TasksOk;
      FinishingKeepsTasks(s, a.w);
    } else if a.Pop? || a.LoadJoined? || a.CheckEmpty? {
      hide TasksOk;
      var t := Next(s, a);
      IdlingKeepsTasks(s, a.w, t.workers[a.w]);
      assert t.workers == s.workers[a.w := t.workers[a.w]];
    } else if a.Submit? {
      hide InHand;
      assert s.taken + (s.queue + [a.task]) == (s.taken + s.queue) + [a.task];
    }
  }

  lemma StepKeepsControl(s: State, a: Action)
    requires ControlOk(s) && Enabled(s, a)
    ensures ControlOk(Next(s, a))
  {
  }

  lemma StepKeepsInv(s: State, a: Action)
    requires Inv(s) && Enabled(s, a)
    ensures Inv(Next(s, a))
  {
    hide TasksOk, ControlOk, Enabled, Next;
    StepKeepsTasks(s, a);
    StepKeepsControl(s, a);
  }

  function Execute(s: State, actions: seq<Action>): Option<State>
    decreases |actions|
  {
    if actions == [] then Some(s)
    else if Enabled(s, actions[0]) then Execute(Next(s, actions[0]), actions[1..])
    else None
  }

  lemma {:induction false} RunKeepsInv(s: State, actions: seq<Action>)
    requires Inv(s)
    ensures Execute(s, actions).Some? ==> Inv(Execute(s, actions).value)
    decreases |actions|
  {
    hide Inv, Enabled, Next;
    if actions != [] && Enabled(s, actions[0]) {
      StepKeepsInv(s, actions[0]);
      RunKeepsInv(Next(s, actions[0]), actions[1..]);
    }
  }

  lemma ClosedStep(s: State, a: Action)
    requires s.stopped && Enabled(s, a)
    ensures var t := Next(s, a); t.stopped && t.accepted == s.accepted && |t.workers| == |s.workers|
  {
  }

  /** A closed pool accepts nothing more. */
  lemma {:induction false} NothingAfterShutdown(s: State, actions: seq<Action>)
    requires Inv(s) && s.stopped
    ensures match Execute(s, actions)
      case None => true
      case Some(t) => t.stopped && t.accepted == s.accepted && |t.workers| == |s.workers|
    decreases |actions|
  {
    if actions != [] && Enabled(s, actions[0]) {
      StepKeepsInv(s, actions[0]);
      ClosedStep(s, actions[0]);
      hide Inv, Enabled, Next;
      NothingAfterShutdown(Next(s, actions[0]), actions[1..]);
    }
  }

  /** Every accepted task was taken in order and run exactly once. */
  ghost predicate AllRun(s: State) {
    s.taken == s.accepted && multiset(s.finished) == multiset(s.accepted)
  }

  /**
   * When `join` returns, every task accepted before the shutdown has been taken in order
   * and run exactly once, and none pushed later has: this needs one worker at least,
   * or nothing to do.
   */
  lemma {:induction false} JoinDrains(s: State, actions: seq<Action>)
    requires Init(s)
    ensures match Execute(s, actions)
      case None => true
      case Some(t) =>
        t.joiner.Joined? ==>
          (AllRun(t) <==> |s.workers| > 0 || t.accepted == [])
  {
    InitHasInv(s);
    RunKeepsInv(s, actions);
    WorkersStay(s, actions);
    if Execute(s, actions).Some? {
      var t := Execute(s, actions).value;
      if t.joiner.Joined? {
        hide Execute, Init;
        NothingInHand(t.workers);
        if |t.workers| > 0 {
          assert t.workers[0] == Exited;
          assert t.queue == [];
        } else {
          NobodyTakes(s, actions);
        }
      }
    }
  }

  lemma {:induction false} WorkersStay(s: State, actions: seq<Action>)
    ensures Execute(s, actions).Some? ==> |Execute(s, actions).value.workers| == |s.workers|
    decreases |actions|
  {
    if actions != [] && Enabled(s, actions[0]) {
      WorkersStay(Next(s, actions[0]), actions[1..]);
    }
  }

  /** Without workers nothing is ever taken. */
  lemma {:induction false} NobodyTakes(s: State, actions: seq<Action>)
    requires |s.workers| == 0
    ensures Execute(s, actions).Some? ==> Execute(s, actions).value.taken == s.taken
    decreases |actions|
  {
    if actions != [] && Enabled(s, actions[0]) {
      NobodyTakes(Next(s, actions[0]), actions[1..]);
    }
  }

  lemma {:induction false} ExecuteFirst(s: State, a: Action, t: State, rest: seq<Action>)
    requires Enabled(s, a) && t == Next(s, a)
    ensures Execute(s, [a] + rest) == Execute(t, rest)
  {
    hide Enabled, Next;
    assert ([a] + rest)[1..] == rest;
  }

  const NO_WORKERS: State := State([], false, false, [], NotJoining, [], [], [])

  /** A pool of no workers: `join` returns, and the task that was accepted has never been taken. */
  lemma {:induction false} NoWorkersRunNothing(task: int)
    ensures Init(NO_WORKERS)
    ensures var t := Execute(NO_WORKERS, [Submit(task)] + ([CallShutdown] + ([StoreJoined] + ([JoinThread] + []))));
      t.Some? && t.value.joiner == Joined && t.value.accepted == [task] && t.value.taken == [] && !AllRun(t.value)
  {
    var s := NO_WORKERS;
    var s1 := s.(queue := [task], accepted := [task]);
    var s2 := s1.(stopped := true, joiner := ShutDown);
    var s3 := s2.(joined := true, joiner := WaitingFor(0));
    var s4 := s3.(joiner := Joined);
    assert [] + [task] == [task];
    assert Execute(s4, []) == Some(s4);
    hide Execute;
    ExecuteFirst(s3, JoinThread, s4, []);
    ExecuteFirst(s2, StoreJoined, s3, [JoinThread] + []);
    ExecuteFirst(s1, CallShutdown, s2, [StoreJoined] + ([JoinThread] + []));
    ExecuteFirst(s, Submit(task), s1, [CallShutdown] + ([StoreJoined] + ([JoinThread] + [])));
  }

  // ----- what was submitted -----

  /** The tasks submitted in a run before it calls `shutdown`, read off the calls. */
  function Submitted(actions: seq<Action>): seq<int> {
    if actions == [] || actions[0].CallShutdown? then []
    else (if actions[0].Submit? then [actions[0].task] else []) + Submitted(actions[1..])
  }

  /** The pool accepts exactly what is submitted before the shutdown, in that order. */
  lemma {:induction false} AcceptedIsSubmitted(s: State, actions: seq<Action>)
    requires Inv(s)
    ensures match Execute(s, actions)
      case None => true
      case Some(t) => t.accepted == if s.stopped then s.accepted else s.accepted + Submitted(actions)
    decreases |actions|
  {
    if s.stopped {
      NothingAfterShutdown(s, actions);
    } else if actions != [] && Enabled(s, actions[0]) {
      var a, t := actions[0], Next(s, actions[0]);
      AcceptedStep(s, a);
      StepKeepsInv(s, a);
      hide Inv, Enabled, Next;
      AcceptedIsSubmitted(t, actions[1..]);
      if a.Submit? {
        Assoc(s.accepted, [a.task], Submitted(actions[1..]));
      } else if !a.CallShutdown? {
        NothingAdded(Submitted(actions[1..]));
      } else {
        NothingAdded(s.accepted);
      }
    }
  }

  lemma AcceptedStep(s: State, a: Action)
    requires Inv(s) && !s.stopped && Enabled(s, a)
    ensures var t := Next(s, a);
      && (t.stopped <==> a.CallShutdown?)
      && t.accepted == if a.Submit? then s.accepted + [a.task] else s.accepted
  {
  }

  // ----- progress -----

  ghost predicate NoSubmits(actions: seq<Action>) {
    forall i :: 0 <= i < |actions| ==> !actions[i].Submit?
  }

  /** A run in which nothing is submitted. */
  ghost predicate Leads(s: State, actions: seq<Action>, t: State) {
    NoSubmits(actions) && Execute(s, actions) == Some(t)
  }

  lemma {:induction false} LeadsOn(s: State, a: Action, t: State, rest: seq<Action>, u: State)
    requires Enabled(s, a) && !a.Submit? && t == Next(s, a) && Leads(t, rest, u)
    ensures Leads(s, [a] + rest, u)
  {
    hide Enabled, Next;
    ExecuteFirst(s, a, t, rest);
  }

  /** How far a worker is from its exit. */
  function ToExit(w: Worker): nat {
    match w
    case Exited => 0
    case SawJoined => 1
    case CameBack => 2
    case Popping => 3
    case Running(_) => 4
  }

  function AllToExit(workers: seq<Worker>): nat {
    if workers == [] then 0 else ToExit(workers[0]) + AllToExit(workers[1..])
  }

  lemma {:induction false} ToExitUpdate(workers: seq<Worker>, w: nat, v: Worker)
    requires w < |workers|
    ensures AllToExit(workers[w := v]) == AllToExit(workers) - ToExit(workers[w]) + ToExit(v)
  {
    var more := workers[w := v];
    if w > 0 {
      assert more[1..] == workers[1..][w - 1 := v];
      ToExitUpdate(workers[1..], w - 1, v);
    } else {
      assert more[1..] == workers[1..];
    }
  }

  /** How far the joining thread is from the return of `join`. */
  function ToJoin(s: State): nat {
    match s.joiner
    case NotJoining => |s.workers| + 3
    case ShutDown => |s.workers| + 2
    case WaitingFor(next) => if next <= |s.workers| then |s.workers| + 1 - next else 0
    case Joined => 0
  }

  /** While the joiner has not set its flag, or all workers have exited, it can go on. */
  lemma {:induction false} JoinerStep(s: State) returns (a: Action)
    requires Inv(s) && !s.joiner.Joined?
    requires s.joiner.WaitingFor? ==> forall w :: 0 <= w < |s.workers| ==> s.workers[w].Exited?
    ensures Enabled(s, a) && !a.Submit? && Inv(Next(s, a))
    ensures var t := Next(s, a); t.workers == s.workers && t.queue == s.queue && ToJoin(t) < ToJoin(s)
  {
    a := match s.joiner
      case NotJoining => CallShutdown
      case ShutDown => StoreJoined
      case _ => JoinThread;
    StepKeepsInv(s, a);
    hide TasksOk;
  }

  function WorkerAction(s: State, w: nat): Action
    requires w < |s.workers|
  {
    match s.workers[w]
    case Popping => Pop(w)
    case Running(_) => Finish(w)
    case CameBack => LoadJoined(w)
    case _ => CheckEmpty(w)
  }

  lemma WorkerMoves(s: State, w: nat)
    requires ControlOk(s) && s.joined && w < |s.workers| && !s.workers[w].Exited?
    ensures var a := WorkerAction(s, w); Enabled(s, a) && !a.Submit?
    ensures var t := Next(s, WorkerAction(s, w));
      t.joiner == s.joiner && t.joined && |t.workers| == |s.workers| && t.workers == s.workers[w := t.workers[w]]
    ensures var t := Next(s, WorkerAction(s, w));
      |t.queue| < |s.queue| || (t.queue == s.queue && ToExit(t.workers[w]) < ToExit(s.workers[w]))
  {
  }

  /** After that every worker that has not exited can go on: it takes a task, runs it, or leaves. */
  lemma {:induction false} WorkerStep(s: State, w: nat) returns (a: Action)
    requires Inv(s) && s.joined && w < |s.workers| && !s.workers[w].Exited?
    ensures Enabled(s, a) && !a.Submit? && Inv(Next(s, a))
    ensures var t := Next(s, a);
      t.joiner == s.joiner && |t.workers| == |s.workers| && t.joined
      && (|t.queue| < |s.queue| || (t.queue == s.queue && AllToExit(t.workers) < AllToExit(s.workers)))
  {
    a := WorkerAction(s, w);
    WorkerMoves(s, w);
    hide TasksOk, ControlOk, AllToExit, Next, Enabled, WorkerAction, ToExit;
    StepKeepsInv(s, a);
    ToExitUpdate(s.workers, w, Next(s, a).workers[w]);
  }

  /**
   * Progress: from every reachable state of a pool with workers, whatever they are in the
   * middle of, `join` can return without a further submission, and then every worker has
   * exited and every accepted task has been taken in order and run exactly once.
   */
  lemma {:induction false} JoinCanReturn(s: State) returns (actions: seq<Action>, t: State)
    requires Inv(s) && |s.workers| > 0
    ensures Leads(s, actions, t) && Inv(t) && t.joiner.Joined? && AllRun(t)
    ensures |t.workers| == |s.workers| && forall w :: 0 <= w < |t.workers| ==> t.workers[w].Exited?
    decreases if s.joined then 0 else 1, ToJoin(s), |s.queue|, AllToExit(s.workers)
  {
    if s.joiner.Joined? {
      actions, t := [], s;
      ExitedHaveRun(s);
    } else {
      var a: Action;
      if w :| 0 <= w < |s.workers| && s.joiner.WaitingFor? && !s.workers[w].Exited? {
        assert s.joined;
        a := WorkerStep(s, w);
        assert ToJoin(Next(s, a)) == ToJoin(s);
      } else {
        a := JoinerStep(s);
        assert s.joined ==> Next(s, a).joined;
      }
      var n := Next(s, a);
      hide Inv, Enabled, Next, Leads, AllRun, AllToExit, ToJoin;
      var rest;
      rest, t := JoinCanReturn(n);
      LeadsOn(s, a, n, rest, t);
      actions := [a] + rest;
    }
  }

  lemma {:induction false} ExitedHaveRun(s: State)
    requires Inv(s) && |s.workers| > 0 && s.joiner.Joined?
    ensures AllRun(s) && forall w :: 0 <= w < |s.workers| ==> s.workers[w].Exited?
  {
    NothingInHand(s.workers);
    assert s.workers[0].Exited?;
    assert s.queue == [] && s.taken + [] == s.taken;
  }
}
