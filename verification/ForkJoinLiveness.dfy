/** The fork-join scheduler never blocks for good, and every run of it ends. */
module ForkJoinLiveness {
  import opened Wrappers
  import opened ForkJoin
  import opened ForkJoinInvariant
  import opened ForkJoinSteps
  import opened ForkJoinSafety

  // ----- deadlock freedom -----

  /** The holder of a query's lock can go on. */
  lemma HolderCanGo(s: State, q: nat)
    requires WellFormed(s) && Inv(s) && q < |s.queries| && s.queries[q].holder.Some?
    ensures CanGo(s, s.queries[q].holder.value)
  {
    hide Inv;
    QueryIn(s, q);
  }

  /** The fork thread `t` sleeps for, if it sleeps and no one notified it. */
  ghost predicate Sleeps(s: State, t: nat)
    requires WellFormed(s)
  {
    t < |s.threads| && s.threads[t].stack != [] && Top(s.threads[t].stack).Run?
    && Asleep(s, t, Top(s.threads[t].stack).stage)
  }

  /** A thread with a call in progress that does not sleep can go on, or the holder of a lock can. */
  lemma AwakeCanGo(s: State, t: nat) returns (u: nat)
    requires WellFormed(s) && Inv(s) && t < |s.threads| && s.threads[t].stack != [] && !Sleeps(s, t)
    ensures CanGo(s, u)
  {
    hide Inv;
    var top := Top(s.threads[t].stack);
    FrameOf(s, t, |s.threads[t].stack| - 1);
    u := t;
    if !top.Code? && QueryOf(s, top.stage).holder.Some? {
      HolderCanGo(s, s.stages[top.stage].query);
      u := QueryOf(s, top.stage).holder.value;
    }
  }

  /** The fork a sleeper sleeps on; 0 for another thread. */
  ghost function SleepsOn(s: State, t: nat): nat
    requires WellFormed(s)
  {
    if Sleeps(s, t) then Top(s.threads[t].stack).stage else 0
  }

  /** A sleeper on a fork whose items are all finished waits for a thread at that fork's notification. */
  lemma WaitsForNotice(s: State, t: nat) returns (u: nat)
    requires WellFormed(s) && Inv(s) && Sleeps(s, t) && s.stages[SleepsOn(s, t)].unfinished == 0
    ensures Innermost(s, u, Help(SleepsOn(s, t), NotifyLock)) || Innermost(s, u, Help(SleepsOn(s, t), NotifyAll))
    ensures !Sleeps(s, u)
  {
    hide Inv;
    var f := SleepsOn(s, t);
    FrameOf(s, t, |s.threads[t].stack| - 1);
    SleeperIsCovered(s, t, f, f);
    var pc;
    u, pc :| (pc == NotifyLock || pc == NotifyAll) && Innermost(s, u, Help(f, pc));
  }

  /** A sleeper on a fork with items unfinished waits for a thread inside one of them, and if that thread sleeps,
      it sleeps on a fork opened later. */
  lemma WaitsForItem(s: State, t: nat) returns (u: nat, d: nat)
    requires WellFormed(s) && Inv(s) && Sleeps(s, t) && s.stages[SleepsOn(s, t)].unfinished > 0
    ensures Inside(s, SleepsOn(s, t), u, d)
    ensures Sleeps(s, u) ==> SleepsOn(s, u) > SleepsOn(s, t)
  {
    hide Inv;
    var f := SleepsOn(s, t);
    FrameOf(s, t, |s.threads[t].stack| - 1);
    StageOf(s, f);
    SleeperIsCovered(s, t, f, f);
    var stage := s.stages[f];
    assert |stage.held| > 0;
    assert stage.held.Keys != {};
    var i :| i in stage.held.Keys;
    assert HeldOk(s, f, i, stage.held[i]);
    u, d := stage.held[i].thread, stage.held[i].depth;
    if Sleeps(s, u) {
      ThreadOf(s, u);
      FrameOf(s, u, |s.threads[u].stack| - 1);
      var e := |s.threads[u].stack| - 1;
      assert d < e && s.threads[u].stack[d].Help? && s.threads[u].stack[e].Run?;
    }
  }

  /** Deadlock freedom: while any call is in progress, some thread can step. Waiting leads from fork to later
      fork, so it ends at a thread that does not sleep. */
  lemma {:induction false} SomeoneCanGo(s: State, t: nat) returns (u: nat)
    requires WellFormed(s) && Inv(s) && t < |s.threads| && s.threads[t].stack != []
    ensures CanGo(s, u)
    decreases |s.stages| - SleepsOn(s, t)
  {
    hide Inv, Sleeps, CanGo;
    if !Sleeps(s, t) {
      u := AwakeCanGo(s, t);
    } else {
      SleepsWithin(s, t);
      if s.stages[SleepsOn(s, t)].unfinished == 0 {
        u := WaitsForNotice(s, t);
        u := AwakeCanGo(s, u);
      } else {
        var d;
        u, d := WaitsForItem(s, t);
        if Sleeps(s, u) {
          SleepsWithin(s, u);
          u := SomeoneCanGo(s, u);
        } else {
          u := AwakeCanGo(s, u);
        }
      }
    }
  }

  lemma SleepsWithin(s: State, t: nat)
    requires WellFormed(s) && Sleeps(s, t)
    ensures SleepsOn(s, t) < |s.stages|
  {
  }

  /** Nothing runs and nothing waits to run. */
  predicate Quiescent(s: State) {
    && (forall t :: 0 <= t < |s.threads| ==> s.threads[t].stack == [])
    && s.pending == []
  }

  /** In every reachable state with a thread, either everything has finished and every fork has returned,
      or some step is possible. */
  lemma NeverStuck(run: seq<State>)
    requires IsRun(run) && run[|run| - 1].threads != []
    ensures var s := run[|run| - 1];
            (exists s' :: Step(s, s')) || (Quiescent(s) && forall f :: 0 <= f < |s.stages| ==> s.stages[f].returned)
  {
    RunKeeps(run);
    CanStep(run[|run| - 1]);
  }

  lemma CanStep(s: State)
    requires Inv(s) && s.threads != []
    ensures (exists s' :: Step(s, s')) || (Quiescent(s) && forall f :: 0 <= f < |s.stages| ==> s.stages[f].returned)
  {
    hide Inv;
    InvWellFormed(s);
    if t :| 0 <= t < |s.threads| && s.threads[t].stack != [] {
      var u := SomeoneCanGo(s, t);
      assert Step(s, Go(s, u));
    } else if s.pending != [] {
      assert CanTake(s, 0, 0) && Step(s, Take(s, 0, 0));
    } else {
      forall f | 0 <= f < |s.stages| ensures s.stages[f].returned {
        StageOf(s, f);
        assert OwnerOk(s, f, s.stages[f]);
      }
    }
  }

  // ----- termination -----

  /** What is left of a body to run, with what its forks will cost. */
  function Work(body: Body): (work: nat)
    ensures work >= 1
  {
    match body
    case Done(_) => 1
    case Fork(items, rest) => Work(rest) + WorkOf(items) + 15
  }

  function WorkOf(items: seq<Body>): nat {
    if items == [] then 0 else Work(items[0]) + 16 + WorkOf(items[1..])
  }

  /** What a frame still has to do. Waiting costs nothing: it is counted in `Ranks`. */
  function FrameWork(frame: Frame): nat {
    match frame
    case Code(body) => Work(body)
    case Run(_, _, pc) =>
      (match pc
       case Opening => 14
       case Announcing => 13
       case ToSpread => 12
       case ToHelp => 5
       case ToFinish => 4
       case Closing => 2
       case Returning => 1
       case _ => 3)
    case Job(_, pc) =>
      (match pc
       case JobSpread => 9
       case JobHelp => 2
       case JobEnd => 1)
    case Spread(_, left, checked) => 2 * left + (if checked then 1 else 2)
    case Help(_, pc) =>
      (match pc
       case Claim => 0
       case Running(_) => 5
       case Keep(_, _) => 4
       case Count(_, _) => 3
       case NotifyLock => 2
       case NotifyAll => 1)
  }

  function StackWork(stack: seq<Frame>): nat {
    if stack == [] then 0 else StackWork(stack[..|stack| - 1]) + FrameWork(stack[|stack| - 1])
  }

  function ThreadsWork(threads: seq<Thread>): nat {
    if threads == [] then 0 else ThreadsWork(threads[..|threads| - 1]) + StackWork(threads[|threads| - 1].stack)
  }

  /** What the items of a stage left to claim and its helpers left to spawn have to do. */
  function StageWork(stage: Stage): nat {
    (if Claimable(stage) then Unclaimed(stage.items[stage.next..]) else 0)
    + 10 * (if stage.unspawned > 0 then stage.unspawned else 0)
  }

  function Unclaimed(items: seq<Body>): nat {
    if items == [] then 0 else Work(items[0]) + 6 + Unclaimed(items[1..])
  }

  function StagesWork(stages: seq<Stage>): nat {
    if stages == [] then 0 else StagesWork(stages[..|stages| - 1]) + StageWork(stages[|stages| - 1])
  }

  function PendingWork(pending: seq<Pending>): nat {
    if pending == [] then 0
    else PendingWork(pending[..|pending| - 1])
         + (match pending[|pending| - 1] case Root(body) => Work(body) + 1 case Helper(_) => 10)
  }

  /** All that is left to do. */
  function TotalWork(s: State): nat {
    ThreadsWork(s.threads) + StagesWork(s.stages) + PendingWork(s.pending)
  }

  /** How far a waiter is from sleep, or from an item. */
  ghost function Rank(s: State, t: nat): nat
    requires WellFormed(s)
  {
    if t >= |s.threads| || s.threads[t].stack == [] then 0
    else
      match Top(s.threads[t].stack)
      case Run(f, _, WaitLock) => |QueryOf(s, f).open| + 4
      case Run(f, _, WaitCheck) => |QueryOf(s, f).open| + 3
      case Run(f, _, Scan(k)) => if k <= |QueryOf(s, f).open| then |QueryOf(s, f).open| - k + 1 else 1
      case Run(f, _, Sleep(epoch)) => if epoch == QueryOf(s, f).epoch then 0 else |QueryOf(s, f).open| + 5
      case Help(f, Claim) => if Claimable(s.stages[f]) then 0 else |QueryOf(s, f).open| + 5
      case _ => 0
  }

  ghost function Ranks(s: State, n: nat): nat
    requires WellFormed(s)
  {
    if n == 0 then 0 else Ranks(s, n - 1) + Rank(s, n - 1)
  }

  lemma {:induction false} StackWorkAppend(stack: seq<Frame>, frames: seq<Frame>)
    ensures StackWork(stack + frames) == StackWork(stack) + StackWork(frames)
  {
    if frames == [] {
      assert stack + frames == stack;
    } else {
      assert (stack + frames)[..|stack + frames| - 1] == stack + frames[..|frames| - 1];
      StackWorkAppend(stack, frames[..|frames| - 1]);
    }
  }

  lemma {:induction false} ThreadsWorkUpdate(threads: seq<Thread>, t: nat, thread: Thread)
    requires t < |threads|
    ensures ThreadsWork(threads[t := thread]) + StackWork(threads[t].stack)
            == ThreadsWork(threads) + StackWork(thread.stack)
  {
    var n := |threads| - 1;
    if t < n {
      ThreadsWorkUpdate(threads[..n], t, thread);
      assert threads[t := thread][..n] == threads[..n][t := thread];
    } else {
      assert threads[t := thread][..n] == threads[..n];
    }
  }

  lemma {:induction false} StagesWorkUpdate(stages: seq<Stage>, f: nat, stage: Stage)
    requires f < |stages|
    ensures StagesWork(stages[f := stage]) + StageWork(stages[f]) == StagesWork(stages) + StageWork(stage)
  {
    var n := |stages| - 1;
    if f < n {
      StagesWorkUpdate(stages[..n], f, stage);
      assert stages[f := stage][..n] == stages[..n][f := stage];
    } else {
      assert stages[f := stage][..n] == stages[..n];
    }
  }

  lemma {:induction false} PendingWorkRemove(pending: seq<Pending>, k: nat)
    requires k < |pending|
    ensures PendingWork(pending) == PendingWork(pending[..k] + pending[k + 1..]) + PendingWork([pending[k]])
  {
    var n := |pending| - 1;
    if k < n {
      PendingWorkRemove(pending[..n], k);
      var left := pending[..k] + pending[k + 1..];
      assert left[..|left| - 1] == pending[..n][..k] + pending[..n][k + 1..];
      assert left[|left| - 1] == pending[n];
    } else {
      assert pending[..k] + pending[k + 1..] == pending[..n];
    }
    assert [pending[k]][..0] == [];
  }

  lemma {:induction false} InTurnWork(items: seq<Body>, rest: Body)
    ensures Work(InTurn(items, rest)) <= Work(rest) + WorkOf(items)
  {
    if items != [] {
      InTurnWork(items[1..], rest);
      AppendWork(items[0], InTurn(items[1..], rest));
    }
  }

  lemma {:induction false} AppendWork(first: Body, second: Body)
    ensures Work(Append(first, second)) <= Work(first) + Work(second)
  {
    match first
    case Done(_) =>
    case Fork(items, rest) => AppendWork(rest, second);
  }

  lemma {:induction false} UnclaimedWork(items: seq<Body>)
    ensures Unclaimed(items) + 10 * |items| == WorkOf(items)
  {
    if items != [] {
      UnclaimedWork(items[1..]);
    }
  }

  /** The work after a step that replaces a thread's frames from depth `k` on. */
  lemma ThreadWorkAfter(s: State, t: nat, k: nat, query: Option<nat>, frames: seq<Frame>)
    requires t < |s.threads| && k <= |s.threads[t].stack|
    ensures var stack := s.threads[t].stack;
            ThreadsWork(s.threads[t := Thread(query, stack[..k] + frames)]) + StackWork(stack[k..])
            == ThreadsWork(s.threads) + StackWork(frames)
  {
    var stack := s.threads[t].stack;
    ThreadsWorkUpdate(s.threads, t, Thread(query, stack[..k] + frames));
    StackWorkAppend(stack[..k], frames);
    StackWorkAppend(stack[..k], stack[k..]);
    assert stack[..k] + stack[k..] == stack;
  }

  lemma SmallStacks()
    ensures StackWork([]) == 0
    ensures forall x :: StackWork([x]) == FrameWork(x)
    ensures forall x, y :: StackWork([x, y]) == FrameWork(x) + FrameWork(y)
  {
    forall x ensures StackWork([x]) == FrameWork(x) {
      assert [x][..0] == [];
    }
    forall x, y ensures StackWork([x, y]) == FrameWork(x) + FrameWork(y) {
      assert [x, y][..1] == [x];
    }
  }

  /** A step that leaves the work as it was: it waits, or finds nothing to claim. */
  predicate Idles(s: State, t: nat)
    requires WellFormed(s) && CanGo(s, t)
  {
    match Top(s.threads[t].stack)
    case Run(f, _, pc) => pc.WaitLock? || pc.Scan? || pc.Sleep? || (pc.WaitCheck? && s.stages[f].unfinished > 0)
    case Help(f, pc) => pc.Claim? && !Claimable(s.stages[f])
    case _ => false
  }

  lemma ForkWork(s: State, t: nat)
    requires WellFormed(s) && CanGo(s, t) && Top(s.threads[t].stack).Code? && Top(s.threads[t].stack).body.Fork?
    requires Helpers(|Top(s.threads[t].stack).body.items|, s.pool) > 0
    ensures TotalWork(Go(s, t)) < TotalWork(s)
  {
    hide WellFormed, ThreadsWork, StackWork, PendingWork;
    SmallStacks();
    var stack := s.threads[t].stack;
    var n := |stack|;
    var s' := Go(s, t);
    var stack' := s'.threads[t].stack;
    var Fork(items, rest) := Top(stack).body;
    assert stack[n - 1..] == [Top(stack)];
    UnclaimedWork(items);
    assert stack'[n - 1..] == [Code(rest), stack'[n]];
    assert stack' == stack[..n - 1] + stack'[n - 1..];
    ThreadWorkAfter(s, t, n - 1, s'.threads[t].query, stack'[n - 1..]);
    assert s'.stages[..|s.stages|] == s.stages;
    assert items[0..] == items;
  }

  lemma CodeWork(s: State, t: nat)
    requires WellFormed(s) && CanGo(s, t) && Top(s.threads[t].stack).Code?
    requires |s.threads[t].stack| > 1 ==> s.threads[t].stack[|s.threads[t].stack| - 2].Help?
                                          && s.threads[t].stack[|s.threads[t].stack| - 2].help.Running?
    ensures TotalWork(Go(s, t)) < TotalWork(s)
  {
    hide WellFormed, ThreadsWork, StackWork, PendingWork, StagesWork, InTurn;
    SmallStacks();
    var stack := s.threads[t].stack;
    var n := |stack|;
    var s' := Go(s, t);
    var body := Top(stack).body;
    if body.Fork? && Helpers(|body.items|, s.pool) > 0 {
      ForkWork(s, t);
    } else if body.Fork? {
      assert stack[n - 1..] == [Top(stack)];
      InTurnWork(body.items, body.rest);
      ThreadWorkAfter(s, t, n - 1, s.threads[t].query, [Code(InTurn(body.items, body.rest))]);
    } else if n == 1 {
      ThreadWorkAfter(s, t, 0, s.threads[t].query, []);
      assert stack[0..] == [Top(stack)] && stack[..0] + [] == [];
    } else {
      assert Below(Below(stack)) == stack[..n - 2];
      ThreadWorkAfter(s, t, n - 2, s.threads[t].query, [Top(s'.threads[t].stack)]);
      assert stack[n - 2..] == [stack[n - 2], stack[n - 1]];
    }
  }

  /** The account of a step: what its frames and its stage had left to do, and have. */
  lemma Accounts(s: State, s': State, t: nat, k: nat, query: Option<nat>, frames: seq<Frame>, f: nat,
                 spawned: seq<Pending>)
    requires t < |s.threads| && k <= |s.threads[t].stack| && f < |s.stages| == |s'.stages|
    requires s'.threads == s.threads[t := Thread(query, s.threads[t].stack[..k] + frames)]
    requires s'.stages == s.stages || s'.stages == s.stages[f := s'.stages[f]]
    requires s'.pending == s.pending + spawned && |spawned| <= 1
    ensures TotalWork(s') + StackWork(s.threads[t].stack[k..]) + StageWork(s.stages[f])
            == TotalWork(s) + StackWork(frames) + StageWork(s'.stages[f]) + PendingWork(spawned)
  {
    ThreadWorkAfter(s, t, k, query, frames);
    StagesWorkUpdate(s.stages, f, s'.stages[f]);
    assert s.stages[f := s'.stages[f]] == s'.stages;
    if spawned == [] {
      assert s'.pending == s.pending;
    } else {
      assert s'.pending[..|s.pending|] == s.pending;
      assert spawned[..0] == [];
    }
  }

  lemma ReturnWork(s: State, t: nat)
    requires WellFormed(s) && CanGo(s, t) && Top(s.threads[t].stack).Run? && Top(s.threads[t].stack).run.Returning?
    requires |s.threads[t].stack| > 1 && s.threads[t].stack[|s.threads[t].stack| - 2].Code?
    ensures TotalWork(Go(s, t)) < TotalWork(s)
  {
    hide WellFormed, TotalWork, StackWork, PendingWork, StageWork, Work;
    SmallStacks();
    NoPending();
    var stack := s.threads[t].stack;
    var n := |stack|;
    var s' := Go(s, t);
    ActsWithin(s, t);
    var f := ActsOn(s, t);
    assert stack[n - 1..] == [Top(stack)];
    assert stack[n - 2..] == [stack[n - 2], stack[n - 1]];
    StageWorkSame(s.stages[f], s'.stages[f]);
    var panic := s.stages[f].panic;
    if panic.Some? {
      assert Below(Below(stack)) == stack[..n - 2];
      Accounts(s, s', t, n - 2, s'.threads[t].query, [Code(Done(panic))], f, []);
      DoneWork(panic);
    } else {
      assert Below(stack) == stack[..n - 1] + [];
      Accounts(s, s', t, n - 1, s'.threads[t].query, [], f, []);
    }
  }

  lemma CallWork(s: State, t: nat)
    requires WellFormed(s) && CanGo(s, t) && Top(s.threads[t].stack).Run? 
    requires var pc := Top(s.threads[t].stack).run;
             pc.Opening? || pc.Announcing? || pc.ToSpread? || pc.ToHelp? || pc.ToFinish? || pc.Closing?
    ensures TotalWork(Go(s, t)) < TotalWork(s)
  {
    hide WellFormed, TotalWork, StackWork, PendingWork, StageWork, Work;
    SmallStacks();
    NoPending();
    var stack := s.threads[t].stack;
    var n := |stack|;
    var s' := Go(s, t);
    var stack' := s'.threads[t].stack;
    ActsWithin(s, t);
    var f := ActsOn(s, t);
    assert stack[n - 1..] == [Top(stack)];
    StageWorkSame(s.stages[f], s'.stages[f]);
    assert stack' == stack[..n - 1] + stack'[n - 1..];
    assert stack'[n - 1..] == if |stack'| == n then [stack'[n - 1]] else [stack'[n - 1], stack'[n]];
    Accounts(s, s', t, n - 1, s'.threads[t].query, stack'[n - 1..], f, []);
  }

  lemma WaitWork(s: State, t: nat)
    requires WellFormed(s) && CanGo(s, t) && Top(s.threads[t].stack).Run? 
    requires var pc := Top(s.threads[t].stack).run; pc.WaitLock? || pc.WaitCheck? || pc.Sleep?
    ensures if Idles(s, t) then TotalWork(Go(s, t)) == TotalWork(s) else TotalWork(Go(s, t)) < TotalWork(s)
  {
    hide WellFormed, TotalWork, StackWork, PendingWork, StageWork, Work;
    SmallStacks();
    NoPending();
    var stack := s.threads[t].stack;
    var n := |stack|;
    var s' := Go(s, t);
    var stack' := s'.threads[t].stack;
    ActsWithin(s, t);
    var f := ActsOn(s, t);
    assert stack[n - 1..] == [Top(stack)];
    StageWorkSame(s.stages[f], s'.stages[f]);
    assert stack' == stack[..n - 1] + [Top(stack')];
    Accounts(s, s', t, n - 1, s'.threads[t].query, [Top(stack')], f, []);
  }

  lemma ScanWork(s: State, t: nat)
    requires WellFormed(s) && CanGo(s, t) && Top(s.threads[t].stack).Run? 
    requires var pc := Top(s.threads[t].stack).run; pc.Scan?
    ensures if Idles(s, t) then TotalWork(Go(s, t)) == TotalWork(s) else TotalWork(Go(s, t)) < TotalWork(s)
  {
    hide WellFormed, TotalWork, StackWork, PendingWork, StageWork, Work;
    SmallStacks();
    NoPending();
    var stack := s.threads[t].stack;
    var n := |stack|;
    var s' := Go(s, t);
    var stack' := s'.threads[t].stack;
    ActsWithin(s, t);
    var f := ActsOn(s, t);
    assert stack[n - 1..] == [Top(stack)];
    StageWorkSame(s.stages[f], s'.stages[f]);
    assert stack' == stack[..n - 1] + stack'[n - 1..];
    assert stack'[n - 1..] == if |stack'| == n then [stack'[n - 1]] else [stack'[n - 1], stack'[n]];
    Accounts(s, s', t, n - 1, s'.threads[t].query, stack'[n - 1..], f, []);
  }

  lemma DoneWork(panic: Option<Panic>)
    ensures Work(Done(panic)) == 1
  {
  }

  lemma NoPending()
    ensures PendingWork([]) == 0
    ensures forall f :: PendingWork([Helper(f)]) == 10
  {
    forall f ensures PendingWork([Helper(f)]) == 10 {
      assert [Helper(f)][..0] == [];
    }
  }

  lemma StageWorkSame(was: Stage, now: Stage)
    ensures now.items == was.items && now.next == was.next && now.unspawned == was.unspawned ==>
              StageWork(now) == StageWork(was)
  {
  }

  lemma JobWork(s: State, t: nat)
    requires WellFormed(s) && CanGo(s, t) && (Top(s.threads[t].stack).Job? || Top(s.threads[t].stack).Spread?)
    ensures TotalWork(Go(s, t)) < TotalWork(s)
  {
    hide WellFormed, TotalWork, StackWork, PendingWork, Work;
    SmallStacks();
    NoPending();
    var stack := s.threads[t].stack;
    var n := |stack|;
    var s' := Go(s, t);
    var stack' := s'.threads[t].stack;
    ActsWithin(s, t);
    var f := ActsOn(s, t);
    assert stack[n - 1..] == [Top(stack)];
    assert stack' == stack[..n - 1] + stack'[n - 1..];
    assert stack'[n - 1..] == if |stack'| < n then [] else if |stack'| == n then [stack'[n - 1]]
                              else [stack'[n - 1], stack'[n]];
    var spawned := s'.pending[|s.pending|..];
    assert spawned == [] || spawned == [Helper(f)];
    Accounts(s, s', t, n - 1, s'.threads[t].query, stack'[n - 1..], f, spawned);
  }

  lemma ClaimWork(s: State, t: nat)
    requires WellFormed(s) && CanGo(s, t) && Top(s.threads[t].stack).Help? && Top(s.threads[t].stack).help.Claim?
    ensures if Idles(s, t) then TotalWork(Go(s, t)) == TotalWork(s) else TotalWork(Go(s, t)) < TotalWork(s)
  {
    hide WellFormed, TotalWork, StackWork, PendingWork, Work;
    SmallStacks();
    NoPending();
    var stack := s.threads[t].stack;
    var n := |stack|;
    var s' := Go(s, t);
    ActsWithin(s, t);
    var f := ActsOn(s, t);
    var stage := s.stages[f];
    assert stack[n - 1..] == [Top(stack)];
    if Claimable(stage) {
      var frames := [Help(f, Running(stage.next)), Code(stage.items[stage.next])];
      assert stage.items[stage.next..][1..] == stage.items[stage.next + 1..];
      Accounts(s, s', t, n - 1, s.threads[t].query, frames, f, []);
    } else {
      assert stack[..n - 1] + [] == Below(stack);
      Accounts(s, s', t, n - 1, s.threads[t].query, [], f, []);
    }
  }

  lemma HelpWork(s: State, t: nat)
    requires WellFormed(s) && CanGo(s, t) && Top(s.threads[t].stack).Help? && !Top(s.threads[t].stack).help.Claim?
    ensures TotalWork(Go(s, t)) < TotalWork(s)
  {
    hide WellFormed, TotalWork, StackWork, PendingWork, Work, StageWork;
    SmallStacks();
    NoPending();
    var stack := s.threads[t].stack;
    var n := |stack|;
    var s' := Go(s, t);
    ActsWithin(s, t);
    var f := ActsOn(s, t);
    assert stack[n - 1..] == [Top(stack)];
    StageWorkSame(s.stages[f], s'.stages[f]);
    Accounts(s, s', t, n - 1, s.threads[t].query, [Top(s'.threads[t].stack)], f, []);
  }

  /** An idle step changes no stage a rank depends on, no open list and no epoch. */
  lemma IdleLeaves(s: State, t: nat)
    requires WellFormed(s) && CanGo(s, t) && Idles(s, t)
    ensures var s' := Go(s, t);
            && |s'.threads| == |s.threads| && |s'.stages| == |s.stages| && |s'.queries| == |s.queries|
            && (forall u :: 0 <= u < |s.threads| && u != t ==> s'.threads[u] == s.threads[u])
            && (forall f :: 0 <= f < |s.stages| ==> s'.stages[f].query == s.stages[f].query
                                                    && Claimable(s'.stages[f]) == Claimable(s.stages[f]))
            && (forall q :: 0 <= q < |s.queries| ==> s'.queries[q].open == s.queries[q].open
                                                     && s'.queries[q].epoch == s.queries[q].epoch)
  {
    hide WellFormed;
    ActsWithin(s, t);
  }

  /** An idle step leaves the other threads' ranks as they were. */
  lemma OtherRanks(s: State, s': State, t: nat, u: nat)
    requires WellFormed(s) && WellFormed(s') && u != t
    requires |s'.threads| == |s.threads| && |s'.stages| == |s.stages| && |s'.queries| == |s.queries|
    requires u < |s.threads| ==> s'.threads[u] == s.threads[u]
    requires forall f :: 0 <= f < |s.stages| ==> s'.stages[f].query == s.stages[f].query
                                                 && Claimable(s'.stages[f]) == Claimable(s.stages[f])
    requires forall q :: 0 <= q < |s.queries| ==> s'.queries[q].open == s.queries[q].open
                                                  && s'.queries[q].epoch == s.queries[q].epoch
    ensures Rank(s', u) == Rank(s, u)
  {
    if u < |s.threads| && s.threads[u].stack != [] && !Top(s.threads[u].stack).Code? {
      ActsWithin(s, u);
      var f := ActsOn(s, u);
      assert s'.stages[f].query == s.stages[f].query;
    }
  }

  lemma {:induction false} RanksDrop(s: State, s': State, t: nat, n: nat)
    requires WellFormed(s) && WellFormed(s')
    requires forall u: nat :: u != t ==> Rank(s', u) == Rank(s, u)
    requires Rank(s', t) < Rank(s, t)
    ensures if t < n then Ranks(s', n) < Ranks(s, n) else Ranks(s', n) == Ranks(s, n)
  {
    if n > 0 {
      RanksDrop(s, s', t, n - 1);
    }
  }

  /** An idle step brings its thread nearer to sleep, or to an item. */
  lemma IdleRank(s: State, t: nat)
    requires WellFormed(s) && Inv(s) && CanGo(s, t) && Idles(s, t) && WellFormed(Go(s, t))
    ensures Rank(Go(s, t), t) < Rank(s, t)
  {
    hide Inv, WellFormed;
    ActsWithin(s, t);
    IdleLeaves(s, t);
    var stack := s.threads[t].stack;
    var k := |stack| - 1;
    FrameOf(s, t, k);
    if Top(stack).Help? {
      IdleHelpRank(s, t);
    } else {
      IdleRunRank(s, t);
    }
  }

  lemma IdleHelpRank(s: State, t: nat)
    requires WellFormed(s) && Inv(s) && CanGo(s, t) && Idles(s, t) && WellFormed(Go(s, t))
    requires Top(s.threads[t].stack).Help?
    ensures Rank(Go(s, t), t) < Rank(s, t)
  {
    hide Inv, WellFormed;
    ActsWithin(s, t);
    IdleLeaves(s, t);
    var stack := s.threads[t].stack;
    var k := |stack| - 1;
    FrameOf(s, t, k);
    FrameOf(s, t, k - 1);
    var s' := Go(s, t);
    assert s'.threads[t].stack == stack[..k];
    assert Top(s'.threads[t].stack) == stack[k - 1];
    assert s'.stages[stack[k - 1].stage].query == s.stages[stack[k].stage].query;
  }

  lemma IdleRunRank(s: State, t: nat)
    requires WellFormed(s) && Inv(s) && CanGo(s, t) && Idles(s, t) && WellFormed(Go(s, t))
    requires Top(s.threads[t].stack).Run?
    ensures Rank(Go(s, t), t) < Rank(s, t)
  {
    hide Inv, WellFormed;
    ActsWithin(s, t);
    IdleLeaves(s, t);
    FrameOf(s, t, |s.threads[t].stack| - 1);
    OpenOf(s, ActsOn(s, t));
    var s' := Go(s, t);
    var f := ActsOn(s, t);
    assert s'.stages == s.stages;
  }

  /** Every step but a spurious wakeup leaves less work, or as much and a waiter nearer to sleep or to an item. */
  ghost predicate Progress(s: State, s': State)
    requires WellFormed(s) && WellFormed(s')
  {
    || TotalWork(s') < TotalWork(s)
    || (TotalWork(s') == TotalWork(s) && |s'.threads| == |s.threads| && Ranks(s', |s.threads|) < Ranks(s, |s.threads|))
  }

  lemma GoProgress(s: State, t: nat)
    requires WellFormed(s) && Inv(s) && CanGo(s, t) && WellFormed(Go(s, t))
    ensures Progress(s, Go(s, t))
  {
    hide Inv, Go, WellFormed, TotalWork, Rank;
    var stack := s.threads[t].stack;
    FrameOf(s, t, |stack| - 1);
    match Top(stack)
    case Code(_) => CodeWork(s, t);
    case Run(_, _, Returning) => ReturnWork(s, t);
    case Run(_, _, pc) =>
      if pc.Scan? { ScanWork(s, t); }
      else if pc.WaitLock? || pc.WaitCheck? || pc.Sleep? { WaitWork(s, t); }
      else { CallWork(s, t); }
      if Idles(s, t) { IdleProgress(s, t); }
    case Help(_, _) =>
      if Top(stack).help.Claim? { ClaimWork(s, t); } else { HelpWork(s, t); }
      if Idles(s, t) { IdleProgress(s, t); }
    case _ => JobWork(s, t);
  }

  lemma IdleProgress(s: State, t: nat)
    requires WellFormed(s) && Inv(s) && CanGo(s, t) && WellFormed(Go(s, t)) && Idles(s, t)
    ensures |Go(s, t).threads| == |s.threads|
    ensures Ranks(Go(s, t), |s.threads|) < Ranks(s, |s.threads|)
  {
    hide Inv, Go, WellFormed, Rank;
    var s' := Go(s, t);
    IdleLeaves(s, t);
    IdleRank(s, t);
    forall u: nat | u != t ensures Rank(s', u) == Rank(s, u) {
      OtherRanks(s, s', t, u);
    }
    RanksDrop(s, s', t, |s.threads|);
  }

  lemma TakeProgress(s: State, t: nat, k: nat)
    requires WellFormed(s) && CanTake(s, t, k) && WellFormed(Take(s, t, k))
    ensures Progress(s, Take(s, t, k))
  {
    hide WellFormed, ThreadsWork, StackWork, StagesWork, Work, Ranks;
    SmallStacks();
    var s' := Take(s, t, k);
    PendingWorkRemove(s.pending, k);
    assert [s.pending[k]][..0] == [];
    ThreadWorkAfter(s, t, 0, s'.threads[t].query, s'.threads[t].stack);
    assert s.threads[t].stack[0..] == [];
    assert s.threads[t].stack[..0] + s'.threads[t].stack == s'.threads[t].stack;
  }

  lemma StepProgress(s: State, s': State)
    requires Inv(s) && Step(s, s')
    ensures Inv(s') && WellFormed(s) && WellFormed(s') && Progress(s, s') && |s'.threads| == |s.threads|
  {
    hide Inv, Go, Take, Progress;
    InvWellFormed(s);
    StepKeeps(s, s');
    InvWellFormed(s');
    StepThreads(s, s');
    if t :| CanGo(s, t) && s' == Go(s, t) {
      GoProgress(s, t);
    } else {
      var t, k :| CanTake(s, t, k) && s' == Take(s, t, k);
      TakeProgress(s, t, k);
    }
  }

  lemma StepThreads(s: State, s': State)
    requires Step(s, s')
    ensures |s'.threads| == |s.threads|
  {
    hide WellFormed, CanGo;
  }

  /** A schedule: each state follows from the one before by a step as long as one is possible. */
  ghost predicate IsSchedule(states: nat -> State) {
    forall k: nat :: Follows(states(k), states(k + 1))
  }

  ghost predicate Follows(s: State, s': State) {
    if exists next :: Step(s, next) then Step(s, s') else s' == s
  }

  /** Termination: every schedule, whatever thread goes next each time, reaches a state in which
      everything has finished and every fork has returned. No fairness is needed. */
  lemma {:induction false} EveryScheduleEnds(states: nat -> State, from: nat) returns (end: nat)
    requires IsSchedule(states) && Inv(states(from)) && WellFormed(states(from)) && states(from).threads != []
    ensures end >= from && Quiescent(states(end))
    ensures forall f :: 0 <= f < |states(end).stages| ==> states(end).stages[f].returned
    decreases TotalWork(states(from)), Ranks(states(from), |states(from).threads|)
  {
    hide Inv, Step, WellFormed, TotalWork, Ranks, Quiescent;
    CanStep(states(from));
    assert Follows(states(from), states(from + 1));
    if exists next :: Step(states(from), next) {
      StepProgress(states(from), states(from + 1));
      end := EveryScheduleEnds(states, from + 1);
    } else {
      end := from;
    }
  }
}
