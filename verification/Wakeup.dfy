/**
 * How posted tasks wake the event loop: the `awake` flag, the eventfd and the bounded
 * task queue, one shared access a step, before `stop` is called.  The queue is the FIFO
 * of at most `cap - 1` items that `MpscQueue` refines; a push that finds no room spins.
 */
module Wakeup {
  import opened Common

  /**
   * Where a thread is inside `postTask` or `postTaskBatch`: outside, with these tasks
   * still to push, or about to write the eventfd.
   */
  datatype Poster = Out | Pushing(rest: seq<int>) | Owing

  /** Where the loop is: `epoll_wait`, the eventfd read, `drainTasks` and its second look. */
  datatype Loop = Polling | Woken | Draining | Emptied | Cleared | Found | Rewaking

  /** `own` is a post that the loop's thread makes in a callback; it does nothing else meanwhile. */
  datatype State = State(
    cap: nat, queue: seq<int>, awake: bool, eventfd: nat, posters: seq<Poster>, loop: Loop, own: Poster,
    posted: seq<int>, done: seq<int>)

  /** The capacity of `task_queue_`. */
  const TASK_QUEUE_CAP: nat := 512

  ghost predicate Init(s: State) {
    && s.cap > 1 && s.queue == [] && !s.awake && s.eventfd == 0 && s.loop == Polling && s.own == Out
    && (forall p :: 0 <= p < |s.posters| ==> s.posters[p] == Out)
    && s.posted == [] && s.done == []
  }

  datatype Action =
    | Begin(p: nat, tasks: seq<int>)
    | Push(p: nat)
    | Exchange(p: nat)
    | Write(p: nat)
    | BeginOwn(tasks: seq<int>)
    | PushOwn
    | ExchangeOwn
    | WriteOwn
    | Wake
    | ReadEventfd
    | RunTask
    | FindEmpty
    | Clear
    | LookAgain
    | ExchangeAgain
    | WriteAgain

  function Room(s: State): int {
    s.cap - 1 - |s.queue|
  }

  /** The loop runs callbacks around `drainTasks` and inside it, and may post in them. */
  predicate Enabled(s: State, a: Action) {
    match a
    case Begin(p, _) => p < |s.posters| && s.posters[p].Out?
    case Push(p) => p < |s.posters| && s.posters[p].Pushing? && s.posters[p].rest != [] && Room(s) > 0
    case Exchange(p) => p < |s.posters| && s.posters[p] == Pushing([])
    case Write(p) => p < |s.posters| && s.posters[p].Owing?
    case BeginOwn(_) => s.own.Out? && s.loop in {Polling, Woken, Draining}
    case PushOwn => s.own.Pushing? && s.own.rest != [] && Room(s) > 0
    case ExchangeOwn => s.own == Pushing([])
    case WriteOwn => s.own.Owing?
    case Wake => s.own.Out? && s.loop == Polling && s.eventfd > 0
    case ReadEventfd => s.own.Out? && s.loop == Woken
    case RunTask => s.own.Out? && s.loop == Draining && s.queue != []
    case FindEmpty => s.own.Out? && s.loop == Draining && s.queue == []
    case Clear => s.loop == Emptied
    case LookAgain => s.loop == Cleared
    case ExchangeAgain => s.loop == Found
    case WriteAgain => s.loop == Rewaking
  }

  function Next(s: State, a: Action): State
    requires Enabled(s, a)
  {
    match a
    case Begin(p, tasks) => s.(posters := s.posters[p := Pushing(tasks)])
    case Push(p) =>
      var rest := s.posters[p].rest;
      s.(queue := s.queue + [rest[0]], posted := s.posted + [rest[0]],
         posters := s.posters[p := Pushing(rest[1..])])
    case Exchange(p) =>
      s.(awake := true, posters := s.posters[p := if s.awake then Out else Owing])
    case Write(p) => s.(eventfd := s.eventfd + 1, posters := s.posters[p := Out])
    case BeginOwn(tasks) => s.(own := Pushing(tasks))
    case PushOwn =>
      s.(queue := s.queue + [s.own.rest[0]], posted := s.posted + [s.own.rest[0]], own := Pushing(s.own.rest[1..]))
    case ExchangeOwn => s.(awake := true, own := if s.awake then Out else Owing)
    case WriteOwn => s.(eventfd := s.eventfd + 1, own := Out)
    case Wake => s.(loop := Woken)
    case ReadEventfd => s.(eventfd := 0, loop := Draining)
    case RunTask => s.(queue := s.queue[1..], done := s.done + [s.queue[0]])
    case FindEmpty => s.(loop := Emptied)
    case Clear => s.(awake := false, loop := Cleared)
    case LookAgain => s.(loop := if s.queue == [] then Polling else Found)
    case ExchangeAgain => s.(awake := true, loop := if s.awake then Polling else Rewaking)
    case WriteAgain => s.(eventfd := s.eventfd + 1, loop := Polling)
  }

  /** The wakeups that one poster still has to write. */
  function Owed(p: Poster): nat {
    if p.Owing? then 1 else 0
  }

  function OwedBy(posters: seq<Poster>): nat {
    if posters == [] then 0 else Owed(posters[0]) + OwedBy(posters[1..])
  }

  lemma {:induction false} OwedUpdate(posters: seq<Poster>, p: nat, q: Poster)
    requires p < |posters|
    ensures OwedBy(posters[p := q]) == OwedBy(posters) - Owed(posters[p]) + Owed(q)
    ensures OwedBy(posters) >= Owed(posters[p])
  {
    if p > 0 {
      assert posters[p := q][1..] == posters[1..][p - 1 := q];
      OwedUpdate(posters[1..], p - 1, q);
    } else {
      assert posters[p := q][1..] == posters[1..];
    }
  }

  lemma {:induction false} NothingOwed(posters: seq<Poster>)
    requires forall p :: 0 <= p < |posters| ==> !posters[p].Owing?
    ensures OwedBy(posters) == 0
  {
    if posters != [] {
      NothingOwed(posters[1..]);
    }
  }

  /** The wakeups on their way: to be written, in the eventfd, or with the loop. */
  function Tokens(s: State): nat {
    OwedBy(s.posters) + Owed(s.own) + s.eventfd
    + (if s.loop in {Draining, Emptied} then 1 else 0)
    + (if s.loop == Rewaking then 1 else 0)
  }

  ghost predicate SomePushing(s: State) {
    s.own.Pushing? || exists p :: 0 <= p < |s.posters| && s.posters[p].Pushing?
  }

  ghost predicate Inv(s: State) {
    && s.cap > 1 && Room(s) >= 0
    // one wakeup exists exactly while `awake` is set
    && Tokens(s) == (if s.awake then 1 else 0)
    && (s.loop == Woken ==> s.eventfd > 0)
    && (!s.own.Out? ==> s.loop in {Polling, Woken, Draining})
    // a task in the queue is announced, or about to be, or about to be looked for
    && (s.queue != [] ==> s.awake || SomePushing(s) || s.loop in {Cleared, Found})
    && (s.loop in {Found, Rewaking} ==> s.queue != [])
    // every task is run once, in the order of posting
    && s.posted == s.done + s.queue
  }

  lemma {:induction false} InitHasInv(s: State)
    requires Init(s)
    ensures Inv(s)
  {
    NothingOwed(s.posters);
  }

  lemma {:induction false} PosterKeepsInv(s: State, a: Action)
    requires Inv(s) && Enabled(s, a) && (a.Begin? || a.Push? || a.Exchange? || a.Write?)
    ensures Inv(Next(s, a))
  {
    var t := Next(s, a);
    hide OwedBy;
    OwedUpdate(s.posters, a.p, t.posters[a.p]);
    if !a.Exchange? && SomePushing(s) {
      if !s.own.Pushing? {
        var q :| 0 <= q < |s.posters| && s.posters[q].Pushing?;
        assert t.posters[q].Pushing?;
      }
    }
    if a.Push? {
      assert t.posters[a.p].Pushing?;
      assert t.posted == t.done + t.queue;
    }
  }

  lemma {:induction false} LoopKeepsInv(s: State, a: Action)
    requires Inv(s) && Enabled(s, a) && !a.Begin? && !a.Push? && !a.Exchange? && !a.Write?
    ensures Inv(Next(s, a))
  {
    var t := Next(s, a);
    hide OwedBy;
    assert t.posters == s.posters;
    if a.PushOwn? {
      assert t.posted == t.done + t.queue;
    } else if a.RunTask? {
      assert s.queue == [s.queue[0]] + s.queue[1..];
    }
  }

  /** Every step of every thread keeps the one wakeup. */
  lemma StepKeepsInv(s: State, a: Action)
    requires Inv(s) && Enabled(s, a)
    ensures Inv(Next(s, a))
  {
    hide Inv, Enabled, Next;
    if a.Begin? || a.Push? || a.Exchange? || a.Write? {
      PosterKeepsInv(s, a);
    } else {
      LoopKeepsInv(s, a);
    }
  }

  function Execute(s: State, actions: seq<Action>): Option<State>
    decreases |actions|
  {
    if actions == [] then Some(s)
    else if Enabled(s, actions[0]) then Execute(Next(s, actions[0]), actions[1..])
    else None
  }

  /**
   * Safety over whole runs: the eventfd never exceeds one, a loop that sleeps with nobody
   * in the middle of posting has nothing to do, and no task is lost or run twice.
   */
  lemma {:induction false} NoTaskIsStranded(s: State, actions: seq<Action>)
    requires Inv(s)
    ensures match Execute(s, actions)
      case None => true
      case Some(t) =>
        && Inv(t)
        && |t.queue| < t.cap
        && t.eventfd <= 1
        && (t.awake <==> Tokens(t) == 1)
        && (t.loop == Polling && t.eventfd == 0 && t.own == Out
            && (forall p :: 0 <= p < |t.posters| ==> t.posters[p] == Out) ==>
             t.queue == [] && t.done == t.posted)
    decreases |actions|
  {
    if actions == [] {
      if forall p :: 0 <= p < |s.posters| ==> s.posters[p] == Out {
        NothingOwed(s.posters);
      }
    } else if Enabled(s, actions[0]) {
      hide Inv, Enabled, Next, Tokens;
      StepKeepsInv(s, actions[0]);
      NoTaskIsStranded(Next(s, actions[0]), actions[1..]);
    }
  }

  // ----- when the threads can come to rest -----

  ghost predicate NoNewPosts(actions: seq<Action>) {
    forall i :: 0 <= i < |actions| ==> !actions[i].Begin? && !actions[i].BeginOwn?
  }

  /** Nobody posts, nothing is queued, and the loop sleeps. */
  ghost predicate AtRest(s: State) {
    && s.loop == Polling && s.eventfd == 0 && s.queue == [] && s.own == Out
    && forall p :: 0 <= p < |s.posters| ==> s.posters[p] == Out
  }

  ghost predicate ReachesRest(s: State) {
    exists actions :: NoNewPosts(actions) && Execute(s, actions).Some? && AtRest(Execute(s, actions).value)
  }

  /** The loop is inside a post of its own that the room left cannot take. */
  ghost predicate SpinsForever(s: State) {
    s.own.Pushing? && |s.own.rest| > Room(s)
  }

  ghost predicate CanFinishPush(s: State, p: Poster) {
    p.Pushing? && |p.rest| <= Room(s)
  }

  /** The loop sleeps, no wakeup is on its way, and no post that has begun fits in the room left. */
  ghost predicate SleepsForever(s: State) {
    && s.loop == Polling && !s.awake && SomePushing(s)
    && !CanFinishPush(s, s.own)
    && forall p :: 0 <= p < |s.posters| ==> !CanFinishPush(s, s.posters[p])
  }

  /** What a poster still has to do. */
  function Todo(p: Poster): nat {
    match p
    case Out => 0
    case Owing => 1
    case Pushing(rest) => 2 + |rest|
  }

  function TodoOf(posters: seq<Poster>): nat {
    if posters == [] then 0 else Todo(posters[0]) + TodoOf(posters[1..])
  }

  lemma {:induction false} TodoUpdate(posters: seq<Poster>, p: nat, q: Poster)
    requires p < |posters|
    ensures TodoOf(posters[p := q]) == TodoOf(posters) - Todo(posters[p]) + Todo(q)
  {
    if p > 0 {
      assert posters[p := q][1..] == posters[1..][p - 1 := q];
      TodoUpdate(posters[1..], p - 1, q);
    } else {
      assert posters[p := q][1..] == posters[1..];
    }
  }

  function Work(s: State): nat {
    TodoOf(s.posters) + Todo(s.own)
  }

  /** How far the loop still has to go when nobody posts. */
  function Stage(s: State): nat {
    match s.loop
    case Emptied => if s.queue == [] then 9 else 16
    case Cleared => if s.queue == [] && s.eventfd == 0 then 8 else 15
    case Found => 14
    case Rewaking => 13
    case Polling => if s.eventfd > 0 then 12 else 0
    case Woken => 11
    case Draining => 10
  }

  ghost predicate Closer(t: State, s: State) {
    || Work(t) < Work(s)
    || (Work(t) == Work(s) && (|t.queue| < |s.queue| || (|t.queue| == |s.queue| && Stage(t) < Stage(s))))
  }

  ghost predicate Hopeful(s: State) {
    Inv(s) && !SpinsForever(s) && !SleepsForever(s)
  }

  /** The loop's own post comes first: nothing else makes room for it. */
  lemma {:induction false} OwnStep(s: State) returns (a: Action)
    requires Hopeful(s) && s.own != Out
    ensures Enabled(s, a) && !a.Begin? && !a.BeginOwn?
    ensures Hopeful(Next(s, a)) && Closer(Next(s, a), s)
  {
    a := match s.own
      case Owing => WriteOwn
      case Pushing(rest) => if rest == [] then ExchangeOwn else PushOwn;
    StepKeepsInv(s, a);
    hide Inv;
  }

  /** Then wakeups are written and finished posts announced. */
  lemma {:induction false} AnnounceStep(s: State, p: nat) returns (a: Action)
    requires Hopeful(s) && s.own == Out && p < |s.posters|
    requires s.posters[p].Owing? || s.posters[p] == Pushing([])
    ensures Enabled(s, a) && !a.Begin? && !a.BeginOwn?
    ensures Hopeful(Next(s, a)) && Closer(Next(s, a), s)
  {
    a := if s.posters[p].Owing? then Write(p) else Exchange(p);
    var t := Next(s, a);
    StepKeepsInv(s, a);
    TodoUpdate(s.posters, p, t.posters[p]);
    OwedUpdate(s.posters, p, t.posters[p]);
    hide OwedBy, TodoOf, SomePushing;
    assert t.awake;
  }

  /** Then tasks are pushed, as long as there is room. */
  lemma {:induction false} PushStep(s: State, p: nat) returns (a: Action)
    requires Hopeful(s) && s.own == Out && p < |s.posters| && Room(s) > 0
    requires s.posters[p].Pushing? && s.posters[p].rest != []
    requires s.loop == Polling && !s.awake ==> CanFinishPush(s, s.posters[p])
    ensures Enabled(s, a) && !a.Begin? && !a.BeginOwn?
    ensures Hopeful(Next(s, a)) && Closer(Next(s, a), s)
  {
    a := Push(p);
    var t := Next(s, a);
    StepKeepsInv(s, a);
    TodoUpdate(s.posters, p, t.posters[p]);
    hide Inv, TodoOf, SomePushing;
    assert t.loop == Polling && !t.awake ==> CanFinishPush(t, t.posters[p]);
  }

  /** Where nothing can or need be pushed, the loop goes on. */
  lemma {:induction false} LoopStep(s: State) returns (a: Action)
    requires Hopeful(s) && s.own == Out && !AtRest(s)
    requires forall p :: 0 <= p < |s.posters| ==> !s.posters[p].Owing? && s.posters[p] != Pushing([])
    requires SomePushing(s) && Room(s) > 0 ==> s.loop in {Polling, Woken, Found, Rewaking} || (s.loop == Cleared && s.queue != [])
    requires SomePushing(s) ==> s.loop != Polling || s.awake
    ensures Enabled(s, a) && !a.Begin? && !a.BeginOwn?
    ensures Hopeful(Next(s, a)) && Closer(Next(s, a), s)
  {
    NothingOwed(s.posters);
    hide OwedBy;
    a := match s.loop
      case Polling => Wake
      case Woken => ReadEventfd
      case Draining => if s.queue == [] then FindEmpty else RunTask
      case Emptied => Clear
      case Cleared => LookAgain
      case Found => ExchangeAgain
      case Rewaking => WriteAgain;
    StepKeepsInv(s, a);
    assert SomePushing(Next(s, a)) ==> SomePushing(s);
    hide Inv, TodoOf;
  }

  /** Some step brings the threads closer to rest, without a new post and without losing hope. */
  lemma {:induction false} HelpfulStep(s: State) returns (a: Action)
    requires Hopeful(s) && !AtRest(s)
    ensures Enabled(s, a) && !a.Begin? && !a.BeginOwn?
    ensures Hopeful(Next(s, a)) && Closer(Next(s, a), s)
  {
    hide Inv, Next, Enabled, Closer;
    if s.own != Out {
      a := OwnStep(s);
    } else if p :| 0 <= p < |s.posters| && (s.posters[p].Owing? || s.posters[p] == Pushing([])) {
      a := AnnounceStep(s, p);
    } else if s.loop == Polling && !s.awake && SomePushing(s) {
      var p :| 0 <= p < |s.posters| && CanFinishPush(s, s.posters[p]);
      assert s.posters[p].rest != [];
      a := PushStep(s, p);
    } else if SomePushing(s) && Room(s) > 0 && s.loop in {Draining, Emptied, Cleared} && (s.loop == Cleared ==> s.queue == []) {
      var p :| 0 <= p < |s.posters| && s.posters[p].Pushing?;
      a := PushStep(s, p);
    } else {
      a := LoopStep(s);
    }
  }

  lemma {:induction false} ReachRest(s: State) returns (actions: seq<Action>)
    requires Hopeful(s)
    ensures NoNewPosts(actions) && Execute(s, actions).Some? && AtRest(Execute(s, actions).value)
    decreases Work(s), |s.queue|, Stage(s)
  {
    if AtRest(s) {
      actions := [];
    } else {
      var a := HelpfulStep(s);
      hide Hopeful, Enabled, Next, AtRest, Work, Stage;
      var rest := ReachRest(Next(s, a));
      actions := [a] + rest;
      assert actions[1..] == rest;
    }
  }

  // ----- when they cannot -----

  /** While the loop spins in its own push no task is run, whatever anybody does or posts. */
  lemma {:induction false} SpinningLoopRunsNothing(s: State, actions: seq<Action>)
    requires Inv(s) && SpinsForever(s)
    ensures match Execute(s, actions)
      case None => true
      case Some(t) => SpinsForever(t) && t.done == s.done
    decreases |actions|
  {
    if actions != [] && Enabled(s, actions[0]) {
      assert SpinsForever(Next(s, actions[0]));
      StepKeepsInv(s, actions[0]);
      hide Inv, SpinsForever;
      SpinningLoopRunsNothing(Next(s, actions[0]), actions[1..]);
    }
  }

  lemma EmptyPushFits(s: State, p: Poster)
    requires p == Pushing([]) && Room(s) >= 0
    ensures CanFinishPush(s, p)
  {
  }

  lemma {:induction false} NobodyAnnounces(s: State, a: Action)
    requires Inv(s) && SleepsForever(s) && Enabled(s, a)
    ensures !a.Exchange? && !a.Write? && !a.ExchangeOwn? && !a.WriteOwn? && !a.Wake?
  {
    if a.Exchange? {
      EmptyPushFits(s, s.posters[a.p]);
    } else if a.Write? {
      OwedUpdate(s.posters, a.p, Out);
    } else if a.ExchangeOwn? {
      EmptyPushFits(s, s.own);
    }
  }

  lemma {:induction false} SleepingStep(s: State, a: Action)
    requires Inv(s) && SleepsForever(s) && Enabled(s, a) && !a.Begin? && !a.BeginOwn?
    ensures SleepsForever(Next(s, a)) && Next(s, a).done == s.done
  {
    NobodyAnnounces(s, a);
    var t := Next(s, a);
    hide Inv;
    if !s.own.Pushing? {
      var q :| 0 <= q < |s.posters| && s.posters[q].Pushing?;
      assert t.posters[q].Pushing?;
    }
    forall p | 0 <= p < |t.posters|
      ensures !CanFinishPush(t, t.posters[p])
    {
      assert !CanFinishPush(s, s.posters[p]);
    }
  }

  /** Asleep with posts that do not fit, the loop never wakes unless another post begins. */
  lemma {:induction false} SleepingLoopRunsNothing(s: State, actions: seq<Action>)
    requires Inv(s) && SleepsForever(s) && NoNewPosts(actions)
    ensures match Execute(s, actions)
      case None => true
      case Some(t) => SleepsForever(t) && t.done == s.done
    decreases |actions|
  {
    if actions != [] && Enabled(s, actions[0]) {
      SleepingStep(s, actions[0]);
      StepKeepsInv(s, actions[0]);
      hide Inv, SleepsForever, Enabled, Next;
      LaterNoNewPosts(actions);
      SleepingLoopRunsNothing(Next(s, actions[0]), actions[1..]);
    }
  }

  /**
   * Progress, exactly: from a reachable state the threads can come to rest without another
   * post if and only if the loop's own post fits in the room left and, should the loop be
   * asleep with no wakeup on its way, so does some other post that has begun.
   */
  lemma {:induction false} RestIsReachableIff(s: State)
    requires Inv(s)
    ensures ReachesRest(s) <==> !SpinsForever(s) && !SleepsForever(s)
  {
    hide Inv;
    if !SpinsForever(s) && !SleepsForever(s) {
      var actions := ReachRest(s);
    } else if ReachesRest(s) {
      var actions :| NoNewPosts(actions) && Execute(s, actions).Some? && AtRest(Execute(s, actions).value);
      if SpinsForever(s) {
        SpinningLoopRunsNothing(s, actions);
      } else {
        SleepingLoopRunsNothing(s, actions);
      }
      hide Execute;
      assert false;
    }
  }

  // ----- no task is dropped on the way -----

  /** The tasks that a poster has yet to push. */
  function Carried(p: Poster): multiset<int> {
    if p.Pushing? then multiset(p.rest) else multiset{}
  }

  function CarriedBy(posters: seq<Poster>): multiset<int> {
    if posters == [] then multiset{} else Carried(posters[0]) + CarriedBy(posters[1..])
  }

  lemma {:induction false} CarriedUpdate(posters: seq<Poster>, p: nat, q: Poster)
    requires p < |posters|
    ensures Carried(posters[p]) <= CarriedBy(posters)
    ensures CarriedBy(posters[p := q]) == CarriedBy(posters) - Carried(posters[p]) + Carried(q)
  {
    hide Carried;
    if p > 0 {
      assert posters[p := q][1..] == posters[1..][p - 1 := q];
      CarriedUpdate(posters[1..], p - 1, q);
    } else {
      assert posters[p := q][1..] == posters[1..];
    }
  }

  lemma {:induction false} NothingCarried(posters: seq<Poster>)
    requires forall p :: 0 <= p < |posters| ==> posters[p] == Out
    ensures CarriedBy(posters) == multiset{}
  {
    if posters != [] {
      NothingCarried(posters[1..]);
    }
  }

  /** Everything handed to a post that has begun: pushed, or still to be pushed. */
  function HandedOver(s: State): multiset<int> {
    multiset(s.posted) + CarriedBy(s.posters) + Carried(s.own)
  }

  lemma FirstOf(rest: seq<int>)
    requires rest != []
    ensures multiset(rest) == multiset{rest[0]} + multiset(rest[1..])
  {
    assert rest == [rest[0]] + rest[1..];
  }

  lemma {:induction false} PushKeepsTasks(s: State, p: nat)
    requires Enabled(s, Push(p))
    ensures HandedOver(Next(s, Push(p))) == HandedOver(s)
  {
    var t := Next(s, Push(p));
    hide CarriedBy;
    CarriedUpdate(s.posters, p, t.posters[p]);
    FirstOf(s.posters[p].rest);
  }

  /** The tasks that this call hands over. */
  function TasksOf(a: Action): multiset<int> {
    match a
    case Begin(_, tasks) => multiset(tasks)
    case BeginOwn(tasks) => multiset(tasks)
    case _ => multiset{}
  }

  /** The tasks that the calls of a run hand over. */
  function Named(actions: seq<Action>): multiset<int> {
    if actions == [] then multiset{} else TasksOf(actions[0]) + Named(actions[1..])
  }

  lemma {:induction false} BeginTakesTasks(s: State, p: nat, tasks: seq<int>)
    requires Enabled(s, Begin(p, tasks))
    ensures HandedOver(Next(s, Begin(p, tasks))) == HandedOver(s) + multiset(tasks)
  {
    hide CarriedBy;
    CarriedUpdate(s.posters, p, Pushing(tasks));
  }

  lemma {:induction false} StepKeepsTasks(s: State, a: Action)
    requires Enabled(s, a)
    ensures HandedOver(Next(s, a)) == HandedOver(s) + TasksOf(a)
  {
    if a.Push? {
      hide Next, HandedOver;
      PushKeepsTasks(s, a.p);
    } else if a.Begin? {
      hide Next, HandedOver;
      BeginTakesTasks(s, a.p, a.tasks);
    } else if a.Exchange? || a.Write? {
      hide CarriedBy;
      CarriedUpdate(s.posters, a.p, Next(s, a).posters[a.p]);
    } else {
      hide CarriedBy;
      LoopKeepsTasks(s, a);
      hide HandedOver, Next;
    }
  }

  lemma {:induction false} LoopKeepsTasks(s: State, a: Action)
    requires Enabled(s, a) && !a.Begin? && !a.Push? && !a.Exchange? && !a.Write?
    ensures HandedOver(Next(s, a)) == HandedOver(s) + TasksOf(a)
  {
    hide CarriedBy;
    if a.PushOwn? {
      FirstOf(s.own.rest);
    }
  }

  /**
   * After any run the tasks pushed and still to be pushed are those from before and those
   * named in its calls, and a run to rest has run exactly these, each once.
   */
  lemma {:induction false} RestMeansAllRun(s: State, actions: seq<Action>)
    requires Inv(s)
    ensures match Execute(s, actions)
      case None => true
      case Some(t) =>
        && HandedOver(t) == HandedOver(s) + Named(actions)
        && (AtRest(t) ==> t.done == t.posted && multiset(t.done) == HandedOver(s) + Named(actions))
    decreases |actions|
  {
    if actions == [] {
      if AtRest(s) {
        NothingCarried(s.posters);
        assert s.done + [] == s.done;
      }
    } else if Enabled(s, actions[0]) {
      StepKeepsTasks(s, actions[0]);
      StepKeepsInv(s, actions[0]);
      hide Inv, AtRest, HandedOver, Enabled, Next, TasksOf;
      RestMeansAllRun(Next(s, actions[0]), actions[1..]);
    }
  }

  /** A thread that posts: a poster, or the loop's own. */
  datatype Thread = Poster(p: nat) | Loop

  ghost predicate IsThread(s: State, w: Thread) {
    w.Poster? ==> w.p < |s.posters|
  }

  /** What the thread still has to push. */
  function RestOf(s: State, w: Thread): seq<int>
    requires w.Poster? ==> w.p < |s.posters|
  {
    var p := if w.Loop? then s.own else s.posters[w.p];
    if p.Pushing? then p.rest else []
  }

  function GivenBy(a: Action, w: Thread): seq<int> {
    match a
    case Begin(p, tasks) => if w == Poster(p) then tasks else []
    case BeginOwn(tasks) => if w == Loop then tasks else []
    case _ => []
  }

  /** The tasks of the thread's posts in a run, post after post, read off its calls. */
  function GivenTo(actions: seq<Action>, w: Thread): seq<int> {
    if actions == [] then [] else GivenBy(actions[0], w) + GivenTo(actions[1..], w)
  }

  function Last(q: seq<int>): seq<int> {
    if q == [] then [] else [q[|q| - 1]]
  }

  function PushedIn(s: State, a: Action, w: Thread): seq<int>
    requires Enabled(s, a)
  {
    match a
    case Push(p) => if w == Poster(p) then Last(Next(s, a).posted) else []
    case PushOwn => if w == Loop then Last(Next(s, a).posted) else []
    case _ => []
  }

  /** What enters the queue at the thread's pushes in a run. */
  function PushedBy(s: State, actions: seq<Action>, w: Thread): seq<int>
    decreases |actions|
  {
    if actions == [] || !Enabled(s, actions[0]) then []
    else PushedIn(s, actions[0], w) + PushedBy(Next(s, actions[0]), actions[1..], w)
  }

  lemma {:induction false} StepInOrder(s: State, a: Action, w: Thread)
    requires Enabled(s, a) && IsThread(s, w)
    ensures IsThread(Next(s, a), w)
    ensures RestOf(s, w) + GivenBy(a, w) == PushedIn(s, a, w) + RestOf(Next(s, a), w)
  {
    NothingAdded(RestOf(s, w));
    if (a.Push? && w == Poster(a.p)) || (a.PushOwn? && w == Loop) {
      PushInOrder(s, a, w);
      hide Next, Enabled;
    } else if (a.Begin? && w == Poster(a.p)) || (a.BeginOwn? && w == Loop) {
      NothingAdded(GivenBy(a, w));
    }
  }

  lemma {:induction false} PushInOrder(s: State, a: Action, w: Thread)
    requires Enabled(s, a) && ((a.Push? && w == Poster(a.p)) || (a.PushOwn? && w == Loop))
    ensures IsThread(Next(s, a), w) && RestOf(s, w) == Last(Next(s, a).posted) + RestOf(Next(s, a), w)
  {
    var rest := RestOf(s, w);
    assert Next(s, a).posted == s.posted + [rest[0]] && RestOf(Next(s, a), w) == rest[1..];
    hide Next, Enabled;
    assert Last(s.posted + [rest[0]]) == [rest[0]];
  }

  /**
   * Each thread's tasks enter the queue in the order given: what it had still to push and
   * what its posts name is what it pushes and what it then has still to push.
   */
  lemma {:induction false} PostedInOrder(s: State, actions: seq<Action>, w: Thread)
    requires IsThread(s, w)
    ensures match Execute(s, actions)
      case None => true
      case Some(t) =>
        IsThread(t, w) && RestOf(s, w) + GivenTo(actions, w) == PushedBy(s, actions, w) + RestOf(t, w)
    decreases |actions|
  {
    if actions == [] {
      NothingAdded(RestOf(s, w));
    } else if Enabled(s, actions[0]) {
      var a, later := actions[0], actions[1..];
      StepInOrder(s, a, w);
      hide Enabled, Next, IsThread, RestOf, GivenBy, PushedIn;
      PostedInOrder(Next(s, a), later, w);
      if Execute(s, actions).Some? {
        var t := Execute(s, actions).value;
        Assoc(RestOf(s, w), GivenBy(a, w), GivenTo(later, w));
        Assoc(PushedIn(s, a, w), RestOf(Next(s, a), w), GivenTo(later, w));
        Assoc(PushedIn(s, a, w), PushedBy(Next(s, a), later, w), RestOf(t, w));
      }
    }
  }

  lemma LaterNoNewPosts(actions: seq<Action>)
    requires NoNewPosts(actions) && actions != []
    ensures NoNewPosts(actions[1..])
  {
    forall i | 0 <= i < |actions[1..]|
      ensures !actions[1..][i].Begin? && !actions[1..][i].BeginOwn?
    {
      assert actions[1..][i] == actions[i + 1];
    }
  }

  // ----- two runs that never come to rest -----

  /** A batch that is begun while everything is at rest gets through exactly when it fits the ring. */
  lemma {:induction false} BatchOnSleepingLoop(s: State, p: nat, tasks: seq<int>)
    requires Inv(s) && AtRest(s) && p < |s.posters|
    ensures ReachesRest(Next(s, Begin(p, tasks))) <==> |tasks| < s.cap
  {
    var t := Next(s, Begin(p, tasks));
    StepKeepsInv(s, Begin(p, tasks));
    NothingOwed(s.posters);
    RestIsReachableIff(t);
    hide Inv, ReachesRest;
    assert t.posters[p].Pushing?;
    assert !s.awake by { InvAtRest(s); }
    if |tasks| >= s.cap {
      forall q | 0 <= q < |t.posters|
        ensures !CanFinishPush(t, t.posters[q])
      {
        assert q != p ==> t.posters[q] == s.posters[q];
      }
    } else {
      assert CanFinishPush(t, t.posters[p]);
    }
  }

  lemma InvAtRest(s: State)
    requires Inv(s) && AtRest(s)
    ensures !s.awake
  {
    NothingOwed(s.posters);
  }

  /** `n` pushes of one poster. */
  function Pushes(p: nat, n: nat): seq<Action> {
    if n == 0 then [] else [Push(p)] + Pushes(p, n - 1)
  }

  function Pushed(s: State, p: nat, n: nat): State
    requires p < |s.posters| && s.posters[p].Pushing? && n <= |s.posters[p].rest|
  {
    var rest := s.posters[p].rest;
    s.(queue := s.queue + rest[..n], posted := s.posted + rest[..n], posters := s.posters[p := Pushing(rest[n..])])
  }

  lemma {:induction false} PushedStep(s: State, p: nat, n: nat)
    requires Enabled(s, Push(p)) && 0 < n <= |s.posters[p].rest|
    ensures Pushed(Next(s, Push(p)), p, n - 1) == Pushed(s, p, n)
  {
    var rest := s.posters[p].rest;
    var first := [rest[0]];
    assert rest[1..][..n - 1] == rest[1..n] && rest[1..][n - 1..] == rest[n..] && first + rest[1..n] == rest[..n];
    assert (s.queue + first) + rest[1..n] == s.queue + (first + rest[1..n]);
    assert (s.posted + first) + rest[1..n] == s.posted + (first + rest[1..n]);
    assert s.posters[p := Pushing(rest[1..])][p := Pushing(rest[n..])] == s.posters[p := Pushing(rest[n..])];
  }

  lemma {:induction false} PushesRun(s: State, p: nat, n: nat)
    requires p < |s.posters| && s.posters[p].Pushing? && n <= |s.posters[p].rest| && n <= Room(s)
    ensures Execute(s, Pushes(p, n)) == Some(Pushed(s, p, n))
    decreases n
  {
    if n == 0 {
      var rest := s.posters[p].rest;
      assert rest[..0] == [] && s.posters[p := Pushing(rest[0..])] == s.posters;
      assert s.queue + [] == s.queue && s.posted + [] == s.posted;
    } else {
      PushedStep(s, p, n);
      hide Pushed;
      PushesRun(Next(s, Push(p)), p, n - 1);
      assert Pushes(p, n)[1..] == Pushes(p, n - 1);
    }
  }

  lemma {:induction false} ExecuteFirst(s: State, a: Action, rest: seq<Action>)
    requires Enabled(s, a)
    ensures Execute(s, [a] + rest) == Execute(Next(s, a), rest)
  {
    assert ([a] + rest)[1..] == rest;
  }

  lemma {:induction false} ExecuteLast(s: State, actions: seq<Action>, a: Action, t: State)
    requires Execute(s, actions) == Some(t) && Enabled(t, a)
    ensures Execute(s, actions + [a]) == Some(Next(t, a))
    decreases |actions|
  {
    hide Enabled, Next;
    if actions == [] {
      assert [] + [a] == [a] && [a][1..] == [];
    } else {
      assert (actions + [a])[1..] == actions[1..] + [a];
      ExecuteLast(Next(s, actions[0]), actions[1..], a, t);
    }
  }

  function StartWith(cap: nat): State {
    State(cap, [], false, 0, [Out], Polling, Out, [], [])
  }

  /**
   * `postTaskBatch` with as many tasks as the ring has slots, 512 in the source, on a
   * sleeping loop: all but one go in, the last push spins, and nobody wakes the loop.
   */
  lemma {:induction false} FullBatchSleeps(cap: nat, tasks: seq<int>)
    requires cap > 1 && |tasks| == cap
    ensures var t := Execute(StartWith(cap), [Begin(0, tasks)] + Pushes(0, cap - 1));
      t.Some? && |t.value.queue| == cap - 1 && t.value.done == [] && SleepsForever(t.value) && !ReachesRest(t.value)
  {
    var s := StartWith(cap);
    InitHasInv(s);
    var u := Next(s, Begin(0, tasks));
    StepKeepsInv(s, Begin(0, tasks));
    ExecuteFirst(s, Begin(0, tasks), Pushes(0, cap - 1));
    PushesRun(u, 0, cap - 1);
    var t := Execute(u, Pushes(0, cap - 1)).value;
    NoTaskIsStranded(u, Pushes(0, cap - 1));
    assert t.posters[0] == Pushing(tasks[cap - 1..]);
    hide Execute, Inv;
    RestIsReachableIff(t);
  }

  lemma BatchOf512Sleeps(tasks: seq<int>)
    requires |tasks| == TASK_QUEUE_CAP
    ensures var t := Execute(StartWith(TASK_QUEUE_CAP), [Begin(0, tasks)] + Pushes(0, TASK_QUEUE_CAP - 1));
      t.Some? && |t.value.queue| == 511 && SleepsForever(t.value) && !ReachesRest(t.value)
  {
    hide Execute, Pushes, SleepsForever, ReachesRest, StartWith;
    FullBatchSleeps(TASK_QUEUE_CAP, tasks);
  }

  /**
   * Others fill the ring, and then the loop posts in a callback: its push spins with
   * nobody left to pop, and no task is ever run again, whatever else happens.
   */
  lemma {:induction false} LoopPostsToFullRing(cap: nat, tasks: seq<int>, own: int, later: seq<Action>)
    requires cap > 1 && |tasks| == cap - 1
    ensures var t := Execute(StartWith(cap), [Begin(0, tasks)] + Pushes(0, cap - 1) + [BeginOwn([own])]);
      && t.Some? && SpinsForever(t.value) && t.value.done == []
      && (Execute(t.value, later).Some? ==> Execute(t.value, later).value.done == [])
  {
    var s := StartWith(cap);
    InitHasInv(s);
    var u := Next(s, Begin(0, tasks));
    StepKeepsInv(s, Begin(0, tasks));
    ExecuteFirst(s, Begin(0, tasks), Pushes(0, cap - 1));
    PushesRun(u, 0, cap - 1);
    NoTaskIsStranded(u, Pushes(0, cap - 1));
    var f := Execute(u, Pushes(0, cap - 1)).value;
    assert |f.queue| == cap - 1 && f.cap == cap && f.own == Out && f.loop == Polling && f.done == [];
    hide Execute, Inv;
    ExecuteLast(s, [Begin(0, tasks)] + Pushes(0, cap - 1), BeginOwn([own]), f);
    var t := Next(f, BeginOwn([own]));
    StepKeepsInv(f, BeginOwn([own]));
    SpinningLoopRunsNothing(t, later);
  }
}
