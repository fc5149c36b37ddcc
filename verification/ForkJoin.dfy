/**
 The fork-join scheduler as a machine whose steps are the atomic actions of its
 threads: one atomic counter access, one critical section, one notification.
 Locks, sequentially consistent counters and the condition variable are modelled;
 any thread may take the next step.

 Some fields record history and take no part in any decision: `owner`, `held`,
 `begun`, `ended`, `kept`, `spawned`, `announced`, `notice`, `returned`.
 */
module ForkJoin {
  import opened Wrappers

  /** The payload a panicking item carries. */
  type Panic = nat

  /** What an item does: fork any number of times, then end, perhaps by a panic. A fork that
      raises a panic ends the item with it. */
  datatype Body =
    | Done(panic: Option<Panic>)
    | Fork(items: seq<Body>, rest: Body)

  /** Where a frame is: its thread, and its depth in that thread's stack. */
  datatype Place = Place(thread: nat, depth: nat)

  /** Whether the last item's notification is due, which step it is at, or whether it was sent. */
  datatype Notice = NotYet | Locking(thread: nat) | Sending(thread: nat) | Sent

  /** One fork. The fields from `owner` on are history. */
  datatype Stage = Stage(
    items: seq<Body>, next: nat, unspawned: int, unfinished: nat, query: nat, panic: Option<Panic>,
    owner: Place, held: map<nat, Place>, begun: seq<nat>, ended: map<nat, Option<Panic>>,
    kept: seq<(nat, Panic)>, spawned: nat, announced: bool, notice: Notice, returned: bool)

  /** The forks open under one root fork, the holder of their lock, and how often the condition
      variable was notified: a sleeper of an earlier epoch has been woken. */
  datatype Query = Query(open: seq<nat>, holder: Option<nat>, epoch: nat)

  datatype RunPc =
    | Opening | Announcing | ToSpread | ToHelp | ToFinish
    | WaitLock | WaitCheck | Scan(at: nat) | Sleep(epoch: nat)
    | Closing | Returning

  datatype HelpPc =
    | Claim | Running(index: nat)
    | Keep(index: nat, panic: Panic) | Count(index: nat, outcome: Option<Panic>)
    | NotifyLock | NotifyAll

  datatype JobPc = JobSpread | JobHelp | JobEnd

  /** One call in progress. */
  datatype Frame =
    | Code(body: Body)
    | Run(stage: nat, entered: bool, run: RunPc)
    | Job(stage: nat, job: JobPc)
    | Spread(stage: nat, left: nat, checked: bool)
    | Help(stage: nat, help: HelpPc)

  /** A pool thread: the query it runs items of, and its calls, the innermost last. */
  datatype Thread = Thread(query: Option<nat>, stack: seq<Frame>)

  /** What an idle thread may start: a caller's code, or a spawned helper. */
  datatype Pending = Root(body: Body) | Helper(stage: nat)

  datatype State = State(
    threads: seq<Thread>, stages: seq<Stage>, queries: seq<Query>, pending: seq<Pending>, pool: nat)

  function Min(a: nat, b: nat): nat {
    if a < b then a else b
  }

  /** The helpers a fork of `len` items asks for. */
  function Helpers(len: nat, pool: nat): nat {
    if Min(len, pool) == 0 then 0 else Min(len, pool) - 1
  }

  /** `first`, then `second` unless `first` panics. */
  function Append(first: Body, second: Body): Body {
    match first
    case Done(None) => second
    case Done(Some(_)) => first
    case Fork(items, rest) => Fork(items, Append(rest, second))
  }

  /** The items one after the other on one thread, then `rest`. */
  function InTurn(items: seq<Body>, rest: Body): Body {
    if items == [] then rest else Append(items[0], InTurn(items[1..], rest))
  }

  function Remove(open: seq<nat>, stage: nat): seq<nat> {
    if open == [] then []
    else if open[0] == stage then Remove(open[1..], stage)
    else [open[0]] + Remove(open[1..], stage)
  }

  function Below(stack: seq<Frame>): seq<Frame>
    requires stack != []
  {
    stack[..|stack| - 1]
  }

  function Top(stack: seq<Frame>): Frame
    requires stack != []
  {
    stack[|stack| - 1]
  }

  /** Whether an item of `stage` is left to claim. */
  predicate Claimable(stage: Stage) {
    stage.next < |stage.items|
  }

  function WithThread(s: State, t: nat, thread: Thread): State
    requires t < |s.threads|
  {
    s.(threads := s.threads[t := thread])
  }

  function WithStack(s: State, t: nat, stack: seq<Frame>): State
    requires t < |s.threads|
  {
    WithThread(s, t, s.threads[t].(stack := stack))
  }

  function WithStage(s: State, f: nat, stage: Stage): State
    requires f < |s.stages|
  {
    s.(stages := s.stages[f := stage])
  }

  function WithQuery(s: State, q: nat, query: Query): State
    requires q < |s.queries|
  {
    s.(queries := s.queries[q := query])
  }

  /** Every stage a frame, a queue entry or an open list names exists, and so does its query. */
  predicate WellFormed(s: State) {
    && (forall t, d :: 0 <= t < |s.threads| && 0 <= d < |s.threads[t].stack| && !s.threads[t].stack[d].Code? ==>
          s.threads[t].stack[d].stage < |s.stages|)
    && (forall f :: 0 <= f < |s.stages| ==> s.stages[f].query < |s.queries|)
    && (forall t :: 0 <= t < |s.threads| && s.threads[t].query.Some? ==> s.threads[t].query.value < |s.queries|)
    && (forall q, k :: 0 <= q < |s.queries| && 0 <= k < |s.queries[q].open| ==> s.queries[q].open[k] < |s.stages|)
    && (forall k :: 0 <= k < |s.pending| && s.pending[k].Helper? ==> s.pending[k].stage < |s.stages|)
  }

  /** The query whose lock or open list `stage` uses. */
  function QueryOf(s: State, stage: nat): Query
    requires WellFormed(s) && stage < |s.stages|
  {
    s.queries[s.stages[stage].query]
  }

  /** Whether the innermost call of thread `t` can take its next step: it can unless it needs a
      lock another thread holds or sleeps on the condition variable. */
  predicate CanGo(s: State, t: nat)
    requires WellFormed(s)
  {
    && t < |s.threads|
    && s.threads[t].stack != []
    && match Top(s.threads[t].stack)
       case Code(_) => true
       case Run(f, _, pc) =>
         (match pc
          case Opening => QueryOf(s, f).holder.None?
          case WaitLock => QueryOf(s, f).holder.None?
          case Closing => QueryOf(s, f).holder.None?
          case Sleep(epoch) => QueryOf(s, f).holder.None? && QueryOf(s, f).epoch != epoch
          case _ => true)
       case Job(_, _) => true
       case Spread(_, _, _) => true
       case Help(f, pc) =>
         (match pc
          case Running(_) => false
          case NotifyLock => QueryOf(s, f).holder.None?
          case _ => true)
  }

  function GoCode(s: State, t: nat): (s': State)
    requires WellFormed(s) && CanGo(s, t) && Top(s.threads[t].stack).Code?
    ensures |s'.threads| == |s.threads|
  {
    var thread := s.threads[t];
    var below := Below(thread.stack);
    match Top(thread.stack).body
    case Fork(items, rest) =>
      var helpers := Helpers(|items|, s.pool);
      if helpers == 0 then WithStack(s, t, below + [Code(InTurn(items, rest))])
      else
        var f := |s.stages|;
        var entered := thread.query.None?;
        var q := if entered then |s.queries| else thread.query.value;
        var queries := if entered then s.queries + [Query([], None, 0)] else s.queries;
        var stage := Stage(items, 0, helpers, |items|, q, None,
                           Place(t, |thread.stack|), map[], [], map[], [], 0, false, NotYet, false);
        s.(threads := s.threads[t := Thread(Some(q), below + [Code(rest), Run(f, entered, Opening)])],
           stages := s.stages + [stage],
           queries := queries)
    case Done(panic) =>
      if below == [] then WithStack(s, t, [])
      else
        match Top(below)
        case Help(f, Running(i)) =>
          var pc := if panic.None? then Count(i, None) else Keep(i, panic.value);
          WithStack(s, t, Below(below) + [Help(f, pc)])
        case _ => s
  }

  function GoRun(s: State, t: nat): (s': State)
    requires WellFormed(s) && CanGo(s, t) && Top(s.threads[t].stack).Run?
    ensures |s'.threads| == |s.threads|
  {
    var thread := s.threads[t];
    var below := Below(thread.stack);
    var Run(f, entered, pc) := Top(thread.stack);
    var stage := s.stages[f];
    var q := stage.query;
    var query := s.queries[q];
    match pc
    case Opening =>
      WithQuery(WithStack(s, t, below + [Run(f, entered, Announcing)]), q, query.(open := query.open + [f]))
    case Announcing =>
      WithStage(WithQuery(WithStack(s, t, below + [Run(f, entered, ToSpread)]), q, query.(epoch := query.epoch + 1)),
                f, stage.(announced := true))
    case ToSpread => WithStack(s, t, below + [Run(f, entered, ToHelp), Spread(f, 2, false)])
    case ToHelp => WithStack(s, t, below + [Run(f, entered, ToFinish), Help(f, Claim)])
    case ToFinish => WithStack(s, t, below + [Run(f, entered, WaitLock), Help(f, Claim)])
    case WaitLock =>
      WithQuery(WithStack(s, t, below + [Run(f, entered, WaitCheck)]), q, query.(holder := Some(t)))
    case WaitCheck =>
      if stage.unfinished == 0 then
        WithQuery(WithStack(s, t, below + [Run(f, entered, Closing)]), q, query.(holder := None))
      else
        WithStack(s, t, below + [Run(f, entered, Scan(0))])
    case Scan(k) =>
      if k < |query.open| then
        if Claimable(s.stages[query.open[k]]) then
          WithQuery(WithStack(s, t, below + [Run(f, entered, WaitLock), Help(query.open[k], Claim)]),
                    q, query.(holder := None))
        else
          WithStack(s, t, below + [Run(f, entered, Scan(k + 1))])
      else
        WithQuery(WithStack(s, t, below + [Run(f, entered, Sleep(query.epoch))]), q, query.(holder := None))
    case Sleep(_) => WithStack(s, t, below + [Run(f, entered, WaitLock)])
    case Closing =>
      WithQuery(WithStack(s, t, below + [Run(f, entered, Returning)]), q, query.(open := Remove(query.open, f)))
    case Returning =>
      var caller :=
        if below == [] then []
        else if stage.panic.None? then below
        else Below(below) + [Code(Done(stage.panic))];
      WithStage(WithThread(s, t, Thread(if entered then None else thread.query, caller)),
                f, stage.(panic := None, returned := true))
  }

  function GoJob(s: State, t: nat): (s': State)
    requires WellFormed(s) && CanGo(s, t) && Top(s.threads[t].stack).Job?
    ensures |s'.threads| == |s.threads|
  {
    var thread := s.threads[t];
    var below := Below(thread.stack);
    var Job(f, pc) := Top(thread.stack);
    match pc
    case JobSpread => WithStack(s, t, below + [Job(f, JobHelp), Spread(f, 2, false)])
    case JobHelp => WithStack(s, t, below + [Job(f, JobEnd), Help(f, Claim)])
    case JobEnd => WithThread(s, t, Thread(None, below))
  }

  function GoSpread(s: State, t: nat): (s': State)
    requires WellFormed(s) && CanGo(s, t) && Top(s.threads[t].stack).Spread?
    ensures |s'.threads| == |s.threads|
  {
    var below := Below(s.threads[t].stack);
    var Spread(f, left, checked) := Top(s.threads[t].stack);
    var stage := s.stages[f];
    if left == 0 then WithStack(s, t, below)
    else if !checked then
      if !Claimable(stage) then WithStack(s, t, below)
      else WithStack(s, t, below + [Spread(f, left, true)])
    else
      var counted := stage.(unspawned := stage.unspawned - 1);
      if stage.unspawned <= 0 then WithStage(WithStack(s, t, below), f, counted)
      else
        WithStage(WithStack(s, t, below + [Spread(f, left - 1, false)]),
                  f, counted.(spawned := stage.spawned + 1))
        .(pending := s.pending + [Helper(f)])
  }

  function GoHelp(s: State, t: nat): (s': State)
    requires WellFormed(s) && CanGo(s, t) && Top(s.threads[t].stack).Help?
    ensures |s'.threads| == |s.threads|
  {
    var below := Below(s.threads[t].stack);
    var Help(f, pc) := Top(s.threads[t].stack);
    var stage := s.stages[f];
    var q := stage.query;
    var query := s.queries[q];
    match pc
    case Claim =>
      var i := stage.next;
      var claimed := stage.(next := i + 1);
      if i >= |stage.items| then WithStage(WithStack(s, t, below), f, claimed)
      else
        WithStage(WithStack(s, t, below + [Help(f, Running(i)), Code(stage.items[i])]),
                  f, claimed.(held := stage.held[i := Place(t, |below|)], begun := stage.begun + [i]))
    case Running(_) => s
    case Keep(i, panic) =>
      WithStage(WithStack(s, t, below + [Help(f, Count(i, Some(panic)))]),
                f, stage.(panic := if stage.panic.None? then Some(panic) else stage.panic,
                          kept := stage.kept + [(i, panic)]))
    case Count(i, outcome) =>
      var left := if stage.unfinished == 0 then 0 else stage.unfinished - 1;
      var counted := stage.(unfinished := left, held := stage.held - {i}, ended := stage.ended[i := outcome]);
      if left == 0 then
        WithStage(WithStack(s, t, below + [Help(f, NotifyLock)]), f, counted.(notice := Locking(t)))
      else
        WithStage(WithStack(s, t, below + [Help(f, Claim)]), f, counted)
    case NotifyLock =>
      WithStage(WithStack(s, t, below + [Help(f, NotifyAll)]), f, stage.(notice := Sending(t)))
    case NotifyAll =>
      WithStage(WithQuery(WithStack(s, t, below + [Help(f, Claim)]), q, query.(epoch := query.epoch + 1)),
                f, stage.(notice := Sent))
  }

  /** The next step of thread `t`'s innermost call. */
  function Go(s: State, t: nat): (s': State)
    requires WellFormed(s) && CanGo(s, t)
    ensures |s'.threads| == |s.threads|
  {
    match Top(s.threads[t].stack)
    case Code(_) => GoCode(s, t)
    case Run(_, _, _) => GoRun(s, t)
    case Job(_, _) => GoJob(s, t)
    case Spread(_, _, _) => GoSpread(s, t)
    case Help(_, _) => GoHelp(s, t)
  }

  predicate CanTake(s: State, t: nat, k: nat) {
    t < |s.threads| && s.threads[t].stack == [] && k < |s.pending|
  }

  /** An idle thread starts the `k`th pending entry. */
  function Take(s: State, t: nat, k: nat): State
    requires WellFormed(s) && CanTake(s, t, k)
  {
    var left := s.(pending := s.pending[..k] + s.pending[k + 1..]);
    match s.pending[k]
    case Root(body) => WithThread(left, t, Thread(None, [Code(body)]))
    case Helper(f) => WithThread(left, t, Thread(Some(s.stages[f].query), [Job(f, JobSpread)]))
  }

  predicate CanWakeUnasked(s: State, t: nat)
    requires WellFormed(s)
  {
    && t < |s.threads|
    && s.threads[t].stack != []
    && Top(s.threads[t].stack).Run?
    && Top(s.threads[t].stack).run.Sleep?
    && QueryOf(s, Top(s.threads[t].stack).stage).holder.None?
  }

  /** A sleeper returns from the condition variable though no one notified it. */
  function WakeUnasked(s: State, t: nat): State
    requires WellFormed(s) && CanWakeUnasked(s, t)
  {
    var stack := s.threads[t].stack;
    WithStack(s, t, Below(stack) + [Top(stack).(run := WaitLock)])
  }

  /** A step some thread of the scheduler takes of itself. */
  ghost predicate Step(s: State, s': State) {
    && WellFormed(s)
    && ((exists t :: CanGo(s, t) && s' == Go(s, t))
        || (exists t, k :: CanTake(s, t, k) && s' == Take(s, t, k)))
  }

  /** A step, or a spurious wakeup. */
  ghost predicate StepOrWake(s: State, s': State) {
    || Step(s, s')
    || (WellFormed(s) && exists t :: CanWakeUnasked(s, t) && s' == WakeUnasked(s, t))
  }

  /** Every thread idle, any callers waiting to start, nothing forked yet. */
  predicate Init(s: State) {
    && (forall t :: 0 <= t < |s.threads| ==> s.threads[t] == Thread(None, []))
    && s.stages == []
    && s.queries == []
    && (forall k :: 0 <= k < |s.pending| ==> s.pending[k].Root?)
  }
}
