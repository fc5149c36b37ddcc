/**
 How a fork spreads: who joins it hands on two helpers, and goes on to claim; it waits, or leaves, only where
 nothing is left to claim.
 */
module ForkJoinSpread {
  import opened ForkJoin
  import opened ForkJoinInvariant
  import opened ForkJoinSteps
  import opened ForkJoinSafety

  /** A fork of one item at most, or on one thread, asks for no helper; any other for one fewer than the lesser of its
      items and the pool's threads. */
  lemma HelpersAre(len: nat, pool: nat)
    ensures Helpers(len, pool) == 0 <==> len <= 1 || pool <= 1
    ensures Helpers(len, pool) > 0 ==> Helpers(len, pool) < len && Helpers(len, pool) < pool
    ensures Helpers(len, pool) > 0 ==> Helpers(len, pool) + 1 == len || Helpers(len, pool) + 1 == pool
  {
  }

  /** A fork runs its items in turn where there is one at most, or one thread, and is opened, with all its items to
      claim, where there are more. */
  lemma OpensExactly(s: State, t: nat)
    requires WellFormed(s) && CanGo(s, t) && Top(s.threads[t].stack).Code? && Top(s.threads[t].stack).body.Fork?
    ensures var (Fork(items, rest), stack, s') := (Top(s.threads[t].stack).body, s.threads[t].stack, Go(s, t));
            if |items| <= 1 || s.pool <= 1 then
              s'.stages == s.stages && s'.threads[t].stack == Below(stack) + [Code(InTurn(items, rest))]
            else
              && |s'.stages| == |s.stages| + 1 && s'.stages[..|s.stages|] == s.stages
              && s'.stages[|s.stages|].items == items && s'.stages[|s.stages|].unfinished == |items|
              && s'.stages[|s.stages|].next == 0
              && |s'.threads[t].stack| == |stack| + 1
              && s'.threads[t].stack[..|stack|] == Below(stack) + [Code(rest)]
              && Top(s'.threads[t].stack).Run? && Top(s'.threads[t].stack).stage == |s.stages|
  {
    HelpersAre(|Top(s.threads[t].stack).body.items|, s.pool);
  }

  // ----- what callers and helpers have handed out -----

  /** `n` helpers were spawned, or as many as may be, or no item is left to claim. */
  predicate HandedOut(stage: Stage, pool: nat, n: int) {
    || !Claimable(stage)
    || stage.spawned >= n
    || stage.spawned + 1 >= |stage.items|
    || stage.spawned + 1 >= pool
  }

  /** How many helpers the call above the frame at `d` has still to spawn. */
  function LeftAbove(stack: seq<Frame>, d: nat): nat {
    if d + 1 < |stack| && stack[d + 1].Spread? then stack[d + 1].left else 0
  }

  /** Whether the call above the frame at `d` claims items of its stage. */
  predicate HelpsOwn(stack: seq<Frame>, d: nat)
    requires d < |stack| && !stack[d].Code?
  {
    d + 1 < |stack| && stack[d + 1].Help? && stack[d + 1].stage == stack[d].stage
  }

  /** What the frame at `d` has handed out, and where it leaves nothing to claim. */
  ghost predicate SpreadOk(stages: seq<Stage>, pool: nat, stack: seq<Frame>, d: nat)
    requires d < |stack|
  {
    !stack[d].Code? && stack[d].stage < |stages| ==>
      var stage := stages[stack[d].stage];
      match stack[d]
      case Run(_, _, pc) =>
        pc.Opening? || pc.Announcing? || pc.ToSpread?
        || (HandedOut(stage, pool, 2 - LeftAbove(stack, d))
            && (pc.ToHelp? || HelpsOwn(stack, d) || !Claimable(stage)))
      case Job(_, pc) =>
        stage.spawned >= 1
        && (pc.JobSpread?
            || (HandedOut(stage, pool, 3 - LeftAbove(stack, d))
                && (pc.JobHelp? || HelpsOwn(stack, d) || !Claimable(stage))))
      case Spread(f, left, _) =>
        left <= 2 && d > 0 && !stack[d - 1].Code? && stack[d - 1].stage == f
        && (stack[d - 1].Run? ==> stack[d - 1].run.ToHelp?) && (stack[d - 1].Job? ==> stack[d - 1].job.JobHelp?)
      case Help(_, _) => true
  }

  ghost predicate StackOk(stages: seq<Stage>, pool: nat, stack: seq<Frame>) {
    forall d :: 0 <= d < |stack| ==> SpreadOk(stages, pool, stack, d)
  }

  /** A helper waits to start only where one was spawned. */
  ghost predicate PendingOk(stages: seq<Stage>, pending: seq<Pending>) {
    forall k :: 0 <= k < |pending| && pending[k].Helper? && pending[k].stage < |stages| ==>
      stages[pending[k].stage].spawned >= 1
  }

  ghost predicate Spreads(s: State) {
    && (forall t :: 0 <= t < |s.threads| ==> StackOk(s.stages, s.pool, s.threads[t].stack))
    && PendingOk(s.stages, s.pending)
  }

  // ----- one step -----

  /** What steps only add to. */
  ghost predicate Grows(stages: seq<Stage>, stages': seq<Stage>) {
    && |stages| <= |stages'|
    && forall f :: 0 <= f < |stages| ==>
         && stages'[f].items == stages[f].items && stages'[f].next >= stages[f].next
         && stages'[f].spawned >= stages[f].spawned
  }

  /** Every stage a frame is of exists. */
  predicate Within(stages: seq<Stage>, stack: seq<Frame>) {
    forall d :: 0 <= d < |stack| && !stack[d].Code? ==> stack[d].stage < |stages|
  }

  lemma StepGrows(s: State, t: nat)
    requires WellFormed(s) && CanGo(s, t)
    ensures Grows(s.stages, Go(s, t).stages)
  {
    hide WellFormed, GoCode, GoRun, GoJob, GoSpread, GoHelp, Grows;
    match Top(s.threads[t].stack)
    case Code(_) => CodeGrows(s, t);
    case Run(_, _, _) => RunGrows(s, t);
    case Help(_, _) => HelpGrows(s, t);
    case _ => JobGrows(s, t);
  }

  lemma CodeGrows(s: State, t: nat)
    requires WellFormed(s) && CanGo(s, t) && Top(s.threads[t].stack).Code?
    ensures Grows(s.stages, Go(s, t).stages) && Go(s, t).pending == s.pending
  {
    hide WellFormed, GoRun, GoJob, GoSpread, GoHelp, Helpers, InTurn;
  }

  lemma RunGrows(s: State, t: nat)
    requires WellFormed(s) && CanGo(s, t) && Top(s.threads[t].stack).Run?
    ensures Grows(s.stages, Go(s, t).stages) && Go(s, t).pending == s.pending
  {
    hide WellFormed, GoCode, GoJob, GoSpread, GoHelp;
    ActsWithin(s, t);
  }

  lemma HelpGrows(s: State, t: nat)
    requires WellFormed(s) && CanGo(s, t) && Top(s.threads[t].stack).Help?
    ensures Grows(s.stages, Go(s, t).stages) && Go(s, t).pending == s.pending
  {
    hide WellFormed, GoCode, GoRun, GoJob, GoSpread;
    ActsWithin(s, t);
    match Top(s.threads[t].stack).help
    case Claim =>
    case Keep(_, _) =>
    case Count(_, _) =>
    case _ =>
  }

  lemma JobGrows(s: State, t: nat)
    requires WellFormed(s) && CanGo(s, t)
    requires Top(s.threads[t].stack).Job? || Top(s.threads[t].stack).Spread?
    ensures Grows(s.stages, Go(s, t).stages)
  {
    hide WellFormed, GoCode, GoRun, GoHelp;
    ActsWithin(s, t);
  }

  /** A step of one thread leaves the others' stacks alone. */
  lemma OthersStay(s: State, t: nat)
    requires WellFormed(s) && CanGo(s, t)
    ensures |Go(s, t).threads| == |s.threads| && Go(s, t).pool == s.pool
    ensures forall u :: 0 <= u < |s.threads| && u != t ==> Go(s, t).threads[u] == s.threads[u]
  {
  }

  /** A stack no step touches is as it was. */
  lemma OthersOk(stages: seq<Stage>, stages': seq<Stage>, pool: nat, stack: seq<Frame>)
    requires Grows(stages, stages') && Within(stages, stack) && StackOk(stages, pool, stack)
    ensures StackOk(stages', pool, stack)
  {
    forall d | 0 <= d < |stack| ensures SpreadOk(stages', pool, stack, d) {
      assert SpreadOk(stages, pool, stack, d);
    }
  }

  /** The innermost calls are replaced, from the frame at `n` on. */
  lemma Replaced(stages: seq<Stage>, stages': seq<Stage>, pool: nat, stack: seq<Frame>, stack': seq<Frame>, n: nat)
    requires Grows(stages, stages') && Within(stages, stack) && StackOk(stages, pool, stack)
    requires n <= |stack| && n <= |stack'| && stack'[..n] == stack[..n]
    requires n > 0 ==> SpreadOk(stages', pool, stack', n - 1)
    requires forall d :: n <= d < |stack'| ==> SpreadOk(stages', pool, stack', d)
    ensures StackOk(stages', pool, stack')
  {
    forall d | 0 <= d < |stack'| ensures SpreadOk(stages', pool, stack', d) {
      if d + 1 < n {
        assert SpreadOk(stages, pool, stack, d);
        assert stack'[d] == stack'[..n][d] && stack'[d + 1] == stack'[..n][d + 1];
        assert d > 0 ==> stack'[d - 1] == stack'[..n][d - 1];
      }
    }
  }

  // ----- each thread's step -----

  lemma StartsFrom(s: State, t: nat)
    requires WellFormed(s) && Inv(s) && Spreads(s) && t < |s.threads| && s.threads[t].stack != []
    ensures Within(s.stages, s.threads[t].stack) && StackOk(s.stages, s.pool, s.threads[t].stack)
    ensures SpreadOk(s.stages, s.pool, s.threads[t].stack, |s.threads[t].stack| - 1)
    ensures ShapeOk(s.threads[t], s.stages, |s.threads[t].stack| - 1)
  {
    hide Inv;
    FrameOf(s, t, |s.threads[t].stack| - 1);
  }

  lemma OkAt(stages: seq<Stage>, pool: nat, stack: seq<Frame>, d: nat)
    requires StackOk(stages, pool, stack) && d < |stack|
    ensures SpreadOk(stages, pool, stack, d)
  {
  }

  lemma CodeSpreads(s: State, t: nat)
    requires WellFormed(s) && Inv(s) && Spreads(s) && CanGo(s, t) && Top(s.threads[t].stack).Code?
    ensures StackOk(Go(s, t).stages, s.pool, Go(s, t).threads[t].stack)
  {
    hide Inv, WellFormed, InTurn, Helpers, GoRun, GoHelp, GoJob, GoSpread, StackOk, Grows, Within;
    StartsFrom(s, t);
    StepGrows(s, t);
    var (stack, s') := (s.threads[t].stack, Go(s, t));
    var (stack', n) := (s'.threads[t].stack, |stack| - 1);
    if Top(stack).body.Fork? {
      Replaced(s.stages, s'.stages, s.pool, stack, stack', n);
    } else if n == 0 {
      Nothing(s'.stages, s.pool);
    } else {
      assert stack'[..n - 1] == stack[..n - 1] && |stack'| == n && stack'[n - 1].Help?;
      if n > 1 {
        OkAt(s.stages, s.pool, stack, n - 2);
        assert stack'[n - 2] == stack'[..n - 1][n - 2] == stack[n - 2];
        assert n > 2 ==> stack'[n - 3] == stack'[..n - 1][n - 3] == stack[n - 3];
      }
      Replaced(s.stages, s'.stages, s.pool, stack, stack', n - 1);
    }
  }

  lemma Nothing(stages: seq<Stage>, pool: nat)
    ensures StackOk(stages, pool, [])
  {
  }

  lemma RunSpreads(s: State, t: nat)
    requires WellFormed(s) && Inv(s) && Spreads(s) && CanGo(s, t)
    requires Top(s.threads[t].stack).Run? && !Top(s.threads[t].stack).run.Returning?
    ensures StackOk(Go(s, t).stages, s.pool, Go(s, t).threads[t].stack)
  {
    hide Inv, WellFormed, GoCode, GoHelp, GoJob, GoSpread, StackOk, Grows, Within, Claimable;
    StartsFrom(s, t);
    StepGrows(s, t);
    ActsWithin(s, t);
    var (stack, s') := (s.threads[t].stack, Go(s, t));
    Replaced(s.stages, s'.stages, s.pool, stack, s'.threads[t].stack, |stack| - 1);
  }

  lemma ReturnSpreads(s: State, t: nat)
    requires WellFormed(s) && Inv(s) && Spreads(s) && CanGo(s, t)
    requires Top(s.threads[t].stack).Run? && Top(s.threads[t].stack).run.Returning?
    ensures StackOk(Go(s, t).stages, s.pool, Go(s, t).threads[t].stack)
  {
    hide Inv, WellFormed, GoCode, GoHelp, GoJob, GoSpread, StackOk, Grows, Within, Claimable;
    StartsFrom(s, t);
    StepGrows(s, t);
    ActsWithin(s, t);
    var (stack, s') := (s.threads[t].stack, Go(s, t));
    var (stack', n) := (s'.threads[t].stack, |stack| - 2);
    FrameOf(s, t, n);
    assert |stack'| == n + 1 && stack'[..n] == stack[..n] && stack'[n].Code?;
    assert n > 0 ==> stack'[n - 1] == stack'[..n][n - 1] && stack'[n - 1].Help?;
    Replaced(s.stages, s'.stages, s.pool, stack, stack', n);
  }

  /** A helper returns where nothing is left to claim; else it stays, perhaps with an item it claimed. */
  lemma HelpStays(s: State, t: nat)
    requires WellFormed(s) && CanGo(s, t) && Top(s.threads[t].stack).Help?
    ensures var (f, below) := (ActsOn(s, t), Below(s.threads[t].stack));
            var (n, stack') := (|below|, Go(s, t).threads[t].stack);
            && f < |s.stages| && f < |Go(s, t).stages| && n <= |stack'| && stack'[..n] == below
            && if n == |stack'| then !Claimable(Go(s, t).stages[f])
               else stack'[n].Help? && stack'[n].stage == f && forall d :: n < d < |stack'| ==> stack'[d].Code?
  {
    hide WellFormed, GoCode, GoRun, GoJob, GoSpread;
    ActsWithin(s, t);
    match Top(s.threads[t].stack).help
    case Claim =>
    case Count(_, _) =>
    case _ =>
  }

  /** The frame below a helper's: the helper stays above it, or leaves nothing to claim. */
  lemma BelowHelper(stages: seq<Stage>, stages': seq<Stage>, pool: nat, stack: seq<Frame>, stack': seq<Frame>, n: nat)
    requires |stack| == n + 1 && stack[n].Help? && n > 0 && (stack[n - 1].Run? || stack[n - 1].Job?)
    requires Grows(stages, stages') && Within(stages, stack) && SpreadOk(stages, pool, stack, n - 1)
    requires n <= |stack'| && stack'[..n] == stack[..n]
    requires if n == |stack'| then stack[n].stage < |stages'| && !Claimable(stages'[stack[n].stage])
             else stack'[n].Help? && stack'[n].stage == stack[n].stage
    ensures SpreadOk(stages', pool, stack', n - 1)
  {
    assert stack'[n - 1] == stack'[..n][n - 1] == stack[n - 1];
    var stage := stages'[stack[n - 1].stage];
    assert HandedOut(stages[stack[n - 1].stage], pool, 2) ==> HandedOut(stage, pool, 2);
  }

  lemma HelpSpreads(s: State, t: nat)
    requires WellFormed(s) && Inv(s) && Spreads(s) && CanGo(s, t) && Top(s.threads[t].stack).Help?
    ensures StackOk(Go(s, t).stages, s.pool, Go(s, t).threads[t].stack)
  {
    hide Inv, WellFormed, Go, StackOk, Within, Grows, SpreadOk;
    StartsFrom(s, t);
    StepGrows(s, t);
    HelpStays(s, t);
    var (stack, s') := (s.threads[t].stack, Go(s, t));
    var (stack', n) := (s'.threads[t].stack, |stack| - 1);
    OkAt(s.stages, s.pool, stack, n - 1);
    BelowHelper(s.stages, s'.stages, s.pool, stack, stack', n);
    forall d | n <= d < |stack'| ensures SpreadOk(s'.stages, s.pool, stack', d) {
      Idle(s'.stages, s.pool, stack', d);
    }
    Replaced(s.stages, s'.stages, s.pool, stack, stack', n);
  }

  /** Code and helpers hand out nothing. */
  lemma Idle(stages: seq<Stage>, pool: nat, stack: seq<Frame>, d: nat)
    requires d < |stack| && (stack[d].Code? || stack[d].Help?)
    ensures SpreadOk(stages, pool, stack, d)
  {
  }

  lemma JobSpreads(s: State, t: nat)
    requires WellFormed(s) && Inv(s) && Spreads(s) && CanGo(s, t) && Top(s.threads[t].stack).Job?
    ensures StackOk(Go(s, t).stages, s.pool, Go(s, t).threads[t].stack)
  {
    hide Inv, WellFormed, GoCode, GoRun, GoHelp, GoSpread, StackOk, Grows, Within, Claimable;
    StartsFrom(s, t);
    StepGrows(s, t);
    ActsWithin(s, t);
    Replaced(s.stages, Go(s, t).stages, s.pool, s.threads[t].stack, Go(s, t).threads[t].stack, 0);
  }

  lemma SpreadSpreads(s: State, t: nat)
    requires WellFormed(s) && Inv(s) && Spreads(s) && CanGo(s, t) && Top(s.threads[t].stack).Spread?
    ensures StackOk(Go(s, t).stages, s.pool, Go(s, t).threads[t].stack)
  {
    hide Inv, WellFormed, GoCode, GoRun, GoHelp, GoJob, StackOk, Grows, Within;
    StartsFrom(s, t);
    StepGrows(s, t);
    ActsWithin(s, t);
    var (stack, s') := (s.threads[t].stack, Go(s, t));
    OkAt(s.stages, s.pool, stack, |stack| - 2);
    SpawnedAll(s, ActsOn(s, t));
    Replaced(s.stages, s'.stages, s.pool, stack, s'.threads[t].stack, |stack| - 1);
  }

  lemma SpawnedAll(s: State, f: nat)
    requires Inv(s) && f < |s.stages|
    ensures var stage := s.stages[f];
            stage.unspawned <= 0 ==> stage.spawned + 1 >= |stage.items| || stage.spawned + 1 >= s.pool
  {
    hide Inv;
    StageOf(s, f);
  }

  lemma PendingSpreads(s: State, t: nat)
    requires WellFormed(s) && Spreads(s) && CanGo(s, t)
    ensures PendingOk(Go(s, t).stages, Go(s, t).pending)
  {
    hide WellFormed, Go, StackOk;
    StepGrows(s, t);
    PendingWithin(s);
    match Top(s.threads[t].stack)
    case Code(_) => CodeGrows(s, t);
    case Run(_, _, _) => RunGrows(s, t);
    case Help(_, _) => HelpGrows(s, t);
    case _ => JobPending(s, t);
  }

  lemma PendingWithin(s: State)
    requires WellFormed(s)
    ensures forall k :: 0 <= k < |s.pending| && s.pending[k].Helper? ==> s.pending[k].stage < |s.stages|
  {
  }

  lemma JobPending(s: State, t: nat)
    requires WellFormed(s) && CanGo(s, t) && PendingOk(s.stages, s.pending)
    requires forall k :: 0 <= k < |s.pending| && s.pending[k].Helper? ==> s.pending[k].stage < |s.stages|
    requires Top(s.threads[t].stack).Job? || Top(s.threads[t].stack).Spread?
    ensures PendingOk(Go(s, t).stages, Go(s, t).pending)
  {
    hide WellFormed, GoCode, GoRun, GoHelp;
    ActsWithin(s, t);
  }

  lemma GoSpreads(s: State, t: nat)
    requires WellFormed(s) && Inv(s) && Spreads(s) && CanGo(s, t)
    ensures Spreads(Go(s, t))
  {
    hide Inv, WellFormed, Go, StackOk, PendingOk, Grows, Within;
    match Top(s.threads[t].stack) {
      case Code(_) => CodeSpreads(s, t);
      case Run(_, _, pc) => if pc.Returning? { ReturnSpreads(s, t); } else { RunSpreads(s, t); }
      case Help(_, _) => HelpSpreads(s, t);
      case Job(_, _) => JobSpreads(s, t);
      case Spread(_, _, _) => SpreadSpreads(s, t);
    }
    PendingSpreads(s, t);
    OthersStay(s, t);
    StepGrows(s, t);
    forall u | 0 <= u < |s.threads| && u != t ensures StackOk(Go(s, t).stages, s.pool, s.threads[u].stack) {
      StagesOf(s, u);
      OthersOk(s.stages, Go(s, t).stages, s.pool, s.threads[u].stack);
    }
  }

  lemma StagesOf(s: State, u: nat)
    requires WellFormed(s) && u < |s.threads|
    ensures Within(s.stages, s.threads[u].stack)
  {
  }

  lemma TakeSpreads(s: State, t: nat, k: nat)
    requires WellFormed(s) && Spreads(s) && CanTake(s, t, k)
    ensures Spreads(Take(s, t, k))
  {
  }

  lemma WakeSpreads(s: State, t: nat)
    requires WellFormed(s) && Inv(s) && Spreads(s) && CanWakeUnasked(s, t)
    ensures Spreads(WakeUnasked(s, t))
  {
    hide Inv, Claimable, StackOk;
    StartsFrom(s, t);
    var (stack, s') := (s.threads[t].stack, WakeUnasked(s, t));
    Replaced(s.stages, s'.stages, s.pool, stack, s'.threads[t].stack, |stack| - 1);
  }

  // ----- runs -----

  lemma StepSpreads(s: State, s': State)
    requires Inv(s) && Spreads(s) && StepOrWake(s, s')
    ensures Spreads(s')
  {
    hide Inv, WellFormed, Spreads, Go, Take, WakeUnasked;
    InvWellFormed(s);
    if t :| CanGo(s, t) && s' == Go(s, t) {
      GoSpreads(s, t);
    } else if t, k :| CanTake(s, t, k) && s' == Take(s, t, k) {
      TakeSpreads(s, t, k);
    } else {
      var t :| CanWakeUnasked(s, t) && s' == WakeUnasked(s, t);
      WakeSpreads(s, t);
    }
  }

  lemma {:induction false} RunSpreadsOut(run: seq<State>)
    requires IsRun(run)
    ensures Inv(run[|run| - 1]) && Spreads(run[|run| - 1])
  {
    hide Inv, StepOrWake, Spreads;
    RunKeeps(run);
    if |run| == 1 {
      InitSpreads(run[0]);
    } else {
      var before := run[..|run| - 1];
      RunSpreadsOut(before);
      assert before[|before| - 1] == run[|run| - 2];
      StepSpreads(run[|run| - 2], run[|run| - 1]);
    }
  }

  lemma InitSpreads(s: State)
    requires Init(s)
    ensures Spreads(s)
  {
  }

  /** A caller past its spreading, or a helper, that is not spreading still. */
  predicate HasSpread(stack: seq<Frame>, d: nat) {
    && d < |stack|
    && ((stack[d].Run? && !stack[d].run.Opening? && !stack[d].run.Announcing? && !stack[d].run.ToSpread?)
        || (stack[d].Job? && !stack[d].job.JobSpread?))
    && !(d + 1 < |stack| && stack[d + 1].Spread?)
  }

  /** Who joined a fork and goes on to claim has handed on two helpers: two are spawned once the forking thread
      claims, three once a helper does, but for what the items and the pool allow, or where no item is left. */
  lemma SpreadsOut(run: seq<State>, t: nat, d: nat)
    requires IsRun(run)
    requires var s := run[|run| - 1]; t < |s.threads| && HasSpread(s.threads[t].stack, d)
    ensures var s := run[|run| - 1];
            var frame := s.threads[t].stack[d];
            && frame.stage < |s.stages|
            && var stage := s.stages[frame.stage];
               stage.next < |stage.items| ==>
                 || stage.spawned >= (if frame.Run? then 2 else 3)
                 || stage.spawned + 1 >= |stage.items| || stage.spawned + 1 >= s.pool
  {
    hide Inv;
    RunSpreadsOut(run);
    InvWellFormed(run[|run| - 1]);
    assert SpreadOk(run[|run| - 1].stages, run[|run| - 1].pool, run[|run| - 1].threads[t].stack, d);
  }

  /** The forking thread looks whether its fork is finished, waits and returns, and a helper leaves, only where no
      item of it is left to claim. */
  lemma LeavesNothing(run: seq<State>, t: nat)
    requires IsRun(run)
    requires var s := run[|run| - 1];
             && t < |s.threads| && s.threads[t].stack != []
             && var top := Top(s.threads[t].stack);
                (top.Run? && top.run !in [Opening, Announcing, ToSpread, ToHelp]) || (top.Job? && top.job.JobEnd?)
    ensures var s := run[|run| - 1];
            var f := Top(s.threads[t].stack).stage;
            f < |s.stages| && s.stages[f].next >= |s.stages[f].items|
  {
    hide Inv;
    RunSpreadsOut(run);
    var s := run[|run| - 1];
    InvWellFormed(s);
    assert SpreadOk(s.stages, s.pool, s.threads[t].stack, |s.threads[t].stack| - 1);
  }

  // ----- helpers -----

  /** Thread `t` is a helper of the fork. */
  predicate Serves(s: State, t: nat, f: nat) {
    && t < |s.threads| && s.threads[t].stack != []
    && s.threads[t].stack[0].Job? && s.threads[t].stack[0].stage == f
  }

  lemma StillServes(s: State, t: nat, f: nat)
    requires WellFormed(s) && Inv(s) && CanGo(s, t) && Serves(s, t, f)
    ensures var (stack, s') := (s.threads[t].stack, Go(s, t));
            s'.threads[t].stack != [] || (stack == [Job(f, JobEnd)] && s'.stages == s.stages)
    ensures Go(s, t).threads[t].stack != [] ==> Serves(Go(s, t), t, f)
  {
    hide Inv, WellFormed, InTurn, Helpers, GoCode, GoRun, GoHelp, GoJob, GoSpread;
    var stack := s.threads[t].stack;
    FrameOf(s, t, |stack| - 1);
    match Top(stack)
    case Code(_) => CodeServes(s, t, f);
    case Run(_, _, _) => RunServes(s, t, f);
    case Help(_, _) => HelpServes(s, t, f);
    case _ => JobServes(s, t, f);
  }

  lemma CodeServes(s: State, t: nat, f: nat)
    requires WellFormed(s) && CanGo(s, t) && Serves(s, t, f) && Top(s.threads[t].stack).Code?
    requires ShapeOk(s.threads[t], s.stages, |s.threads[t].stack| - 1)
    ensures Serves(Go(s, t), t, f)
  {
    hide WellFormed, InTurn, Helpers, GoRun, GoHelp, GoJob, GoSpread;
  }

  lemma RunServes(s: State, t: nat, f: nat)
    requires WellFormed(s) && Inv(s) && CanGo(s, t) && Serves(s, t, f) && Top(s.threads[t].stack).Run?
    ensures Serves(Go(s, t), t, f)
  {
    hide Inv, WellFormed, GoCode, GoHelp, GoJob, GoSpread;
    ActsWithin(s, t);
    FrameOf(s, t, |s.threads[t].stack| - 1);
  }

  lemma HelpServes(s: State, t: nat, f: nat)
    requires WellFormed(s) && CanGo(s, t) && Serves(s, t, f) && Top(s.threads[t].stack).Help?
    requires ShapeOk(s.threads[t], s.stages, |s.threads[t].stack| - 1)
    ensures Serves(Go(s, t), t, f)
  {
    hide WellFormed, Go;
    HelpStays(s, t);
    var (stack, stack') := (s.threads[t].stack, Go(s, t).threads[t].stack);
    assert stack'[0] == stack'[..|stack| - 1][0];
  }

  lemma JobServes(s: State, t: nat, f: nat)
    requires WellFormed(s) && CanGo(s, t) && Serves(s, t, f)
    requires Top(s.threads[t].stack).Job? || Top(s.threads[t].stack).Spread?
    requires ShapeOk(s.threads[t], s.stages, |s.threads[t].stack| - 1)
    ensures var (stack, s') := (s.threads[t].stack, Go(s, t));
            s'.threads[t].stack != [] || (stack == [Job(f, JobEnd)] && s'.stages == s.stages)
    ensures Go(s, t).threads[t].stack != [] ==> Serves(Go(s, t), t, f)
  {
    hide WellFormed, GoCode, GoRun, GoHelp;
    ActsWithin(s, t);
  }

  /** A helper, from the step that takes it up, serves its fork, and is done only when no item of it is left to
      claim. */
  lemma {:induction false} HelperServes(run: seq<State>, i: nat, t: nat, k: nat, f: nat)
    requires IsRun(run) && i + 1 < |run| && WellFormed(run[i]) && CanTake(run[i], t, k)
    requires run[i].pending[k] == Helper(f) && run[i + 1] == Take(run[i], t, k)
    requires forall j :: i < j < |run| - 1 ==> t < |run[j].threads| && run[j].threads[t].stack != []
    ensures var s := run[|run| - 1];
            && t < |s.threads| && f < |s.stages|
            && if s.threads[t].stack == [] then s.stages[f].next >= |s.stages[f].items| else Serves(s, t, f)
    decreases |run|
  {
    hide StepOrWake, Inv, Spreads, Init;
    if |run| == i + 2 {
      TakesUp(run[i], t, k, f);
    } else {
      var (before, s') := (run[..|run| - 1], run[|run| - 1]);
      var s := before[|before| - 1];
      HelperServes(before, i, t, k, f);
      RunSpreadsOut(before);
      assert StepOrWake(run[|run| - 2], run[|run| - 1]);
      StepServes(s, s', t, f);
    }
  }

  lemma TakesUp(s: State, t: nat, k: nat, f: nat)
    requires WellFormed(s) && CanTake(s, t, k) && s.pending[k] == Helper(f)
    ensures f < |s.stages| == |Take(s, t, k).stages| && Serves(Take(s, t, k), t, f)
  {
  }

  lemma StepServes(s: State, s': State, t: nat, f: nat)
    requires Inv(s) && Spreads(s) && StepOrWake(s, s') && Serves(s, t, f) && f < |s.stages|
    ensures t < |s'.threads| && f < |s'.stages|
    ensures if s'.threads[t].stack == [] then s'.stages[f].next >= |s'.stages[f].items| else Serves(s', t, f)
  {
    hide Inv, WellFormed, Spreads, Go, Take, WakeUnasked;
    InvWellFormed(s);
    if u :| CanGo(s, u) && s' == Go(s, u) {
      StepGrows(s, u);
      OthersStay(s, u);
      if u == t {
        StillServes(s, t, f);
        if s'.threads[t].stack == [] {
          NoneLeftFor(s, t, f);
        }
      }
    } else if u, k :| CanTake(s, u, k) && s' == Take(s, u, k) {
      TakeElsewhere(s, u, k);
    } else {
      var u :| CanWakeUnasked(s, u) && s' == WakeUnasked(s, u);
      WakeServes(s, u, t, f);
    }
  }

  lemma NoneLeftFor(s: State, t: nat, f: nat)
    requires Spreads(s) && t < |s.threads| && s.threads[t].stack == [Job(f, JobEnd)] && f < |s.stages|
    ensures s.stages[f].next >= |s.stages[f].items|
  {
    assert SpreadOk(s.stages, s.pool, s.threads[t].stack, 0);
  }

  lemma TakeElsewhere(s: State, u: nat, k: nat)
    requires WellFormed(s) && CanTake(s, u, k)
    ensures Take(s, u, k).stages == s.stages && |Take(s, u, k).threads| == |s.threads|
    ensures forall t :: 0 <= t < |s.threads| && s.threads[t].stack != [] ==> Take(s, u, k).threads[t] == s.threads[t]
  {
  }

  lemma WakeServes(s: State, u: nat, t: nat, f: nat)
    requires WellFormed(s) && CanWakeUnasked(s, u) && Serves(s, t, f)
    ensures WakeUnasked(s, u).stages == s.stages && Serves(WakeUnasked(s, u), t, f)
  {
  }

  // ----- every helper spawned waits or was taken up -----

  /** How many helpers of the fork wait for a thread. */
  function Waiting(pending: seq<Pending>, f: nat): nat {
    if pending == [] then 0
    else Waiting(pending[..|pending| - 1], f) + if pending[|pending| - 1] == Helper(f) then 1 else 0
  }

  function Spawned(s: State, f: nat): nat {
    if f < |s.stages| then s.stages[f].spawned else 0
  }

  /** How many steps of a run took up a helper of the fork. */
  function TakenUp(run: seq<State>, f: nat): nat {
    if |run| < 2 then 0
    else
      var (before, s, s') := (run[..|run| - 1], run[|run| - 2], run[|run| - 1]);
      TakenUp(before, f) + if Waiting(s'.pending, f) < Waiting(s.pending, f) then 1 else 0
  }

  lemma {:induction false} WaitingAdds(a: seq<Pending>, b: seq<Pending>, f: nat)
    ensures Waiting(a + b, f) == Waiting(a, f) + Waiting(b, f)
  {
    if b == [] {
      assert a + b == a;
    } else {
      WaitingAdds(a, b[..|b| - 1], f);
      assert (a + b)[..|a + b| - 1] == a + b[..|b| - 1];
    }
  }

  lemma {:induction false} NoneWaiting(pending: seq<Pending>, f: nat)
    requires forall k :: 0 <= k < |pending| ==> pending[k] != Helper(f)
    ensures Waiting(pending, f) == 0
  {
    if pending != [] {
      NoneWaiting(pending[..|pending| - 1], f);
    }
  }

  /** A step of a call spawns at most one helper, of its own stage, and puts it with those that wait. */
  lemma GoWaits(s: State, t: nat, f: nat)
    requires WellFormed(s) && CanGo(s, t)
    ensures var s' := Go(s, t);
            Waiting(s'.pending, f) - Waiting(s.pending, f) == Spawned(s', f) - Spawned(s, f) >= 0
  {
    hide WellFormed, Go, Waiting, Grows;
    StepGrows(s, t);
    match Top(s.threads[t].stack)
    case Code(_) => CodeGrows(s, t); SpawnsNone(s, t, f);
    case Run(_, _, _) => RunGrows(s, t); SpawnsNone(s, t, f);
    case Help(_, _) => HelpGrows(s, t); SpawnsNone(s, t, f);
    case _ => JobWaits(s, t, f);
  }

  lemma SpawnsNone(s: State, t: nat, f: nat)
    requires WellFormed(s) && CanGo(s, t)
    requires var top := Top(s.threads[t].stack); top.Code? || top.Run? || top.Help?
    ensures Spawned(Go(s, t), f) == Spawned(s, f)
  {
    hide WellFormed, InTurn, Helpers, GoJob, GoSpread;
    if !Top(s.threads[t].stack).Code? {
      ActsWithin(s, t);
    }
  }

  lemma JobWaits(s: State, t: nat, f: nat)
    requires WellFormed(s) && CanGo(s, t)
    requires var top := Top(s.threads[t].stack); top.Job? || top.Spread?
    ensures var s' := Go(s, t);
            Waiting(s'.pending, f) - Waiting(s.pending, f) == Spawned(s', f) - Spawned(s, f) >= 0
  {
    hide WellFormed, GoCode, GoRun, GoHelp, Waiting;
    ActsWithin(s, t);
    var g := ActsOn(s, t);
    WaitingAdds(s.pending, [Helper(g)], f);
    OneWaits(g, f);
  }

  lemma OneWaits(g: nat, f: nat)
    ensures Waiting([Helper(g)], f) == if g == f then 1 else 0
  {
    assert Waiting([], f) == 0;
  }

  /** Taking one up leaves one fewer. */
  lemma TakeWaits(s: State, t: nat, k: nat, f: nat)
    requires WellFormed(s) && CanTake(s, t, k)
    ensures var s' := Take(s, t, k);
            && Spawned(s', f) == Spawned(s, f)
            && Waiting(s.pending, f) == Waiting(s'.pending, f) + if s.pending[k] == Helper(f) then 1 else 0
  {
    hide WellFormed, Waiting;
    var (before, after) := (s.pending[..k], s.pending[k + 1..]);
    assert s.pending == before + ([s.pending[k]] + after);
    WaitingAdds(before, [s.pending[k]] + after, f);
    WaitingAdds([s.pending[k]], after, f);
    WaitingAdds(before, after, f);
    ThisWaits(s.pending[k], f);
  }

  lemma ThisWaits(pending: Pending, f: nat)
    ensures Waiting([pending], f) == if pending == Helper(f) then 1 else 0
  {
    assert Waiting([], f) == 0;
  }

  lemma StepWaits(s: State, s': State, f: nat)
    requires WellFormed(s) && StepOrWake(s, s')
    ensures Spawned(s', f) + Waiting(s.pending, f)
            == Spawned(s, f) + Waiting(s'.pending, f)
               + if Waiting(s'.pending, f) < Waiting(s.pending, f) then 1 else 0
  {
    hide WellFormed, Go, Take, Waiting;
    if t :| CanGo(s, t) && s' == Go(s, t) {
      GoWaits(s, t, f);
    } else if t, k :| CanTake(s, t, k) && s' == Take(s, t, k) {
      TakeWaits(s, t, k, f);
    }
  }

  /** In every run each helper a fork spawned waits for a thread, or was taken up, once. */
  lemma {:induction false} SpawnedWaitOrServe(run: seq<State>, f: nat)
    requires IsRun(run)
    ensures Spawned(run[|run| - 1], f) == Waiting(run[|run| - 1].pending, f) + TakenUp(run, f)
  {
    hide Inv, StepOrWake;
    if |run| == 1 {
      NoneWaiting(run[0].pending, f);
    } else {
      hide Waiting, Init;
      var before := run[..|run| - 1];
      SpawnedWaitOrServe(before, f);
      assert before[|before| - 1] == run[|run| - 2];
      RunKeeps(before);
      InvWellFormed(run[|run| - 2]);
      StepWaits(run[|run| - 2], run[|run| - 1], f);
    }
  }
}
