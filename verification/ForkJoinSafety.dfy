/** What the invariant means for every run of the fork-join scheduler. */
module ForkJoinSafety {
  import opened Wrappers
  import opened ForkJoin
  import opened ForkJoinInvariant
  import opened ForkJoinSteps

  lemma InvWellFormed(s: State)
    requires Inv(s)
    ensures WellFormed(s)
  {
  }

  lemma InitKeeps(s: State)
    requires Init(s)
    ensures Inv(s)
  {
  }

  lemma GoRunKeeps(s: State, t: nat)
    requires WellFormed(s) && Inv(s) && CanGo(s, t) && Top(s.threads[t].stack).Run?
    ensures Inv(Go(s, t))
  {
    hide Inv, Go;
    ActsWithin(s, t);
    var stage := s.stages[ActsOn(s, t)];
    match Top(s.threads[t].stack).run
    case Opening => RunOpenKeeps(s, t);
    case Announcing => AnnounceKeeps(s, t);
    case WaitLock => RunLockKeeps(s, t);
    case WaitCheck => if stage.unfinished == 0 { RunLockKeeps(s, t); } else { RunQuietKeeps(s, t); }
    case Scan(k) =>
      var open := s.queries[stage.query].open;
      if k < |open| && !Claimable(s.stages[open[k]]) { RunQuietKeeps(s, t); } else { RunLockKeeps(s, t); }
    case Closing => RunOpenKeeps(s, t);
    case Returning => ReturnKeeps(s, t);
    case _ => RunQuietKeeps(s, t);
  }

  lemma GoHelpKeeps(s: State, t: nat)
    requires WellFormed(s) && Inv(s) && CanGo(s, t) && Top(s.threads[t].stack).Help?
    ensures Inv(Go(s, t))
  {
    hide Inv, Go;
    ActsWithin(s, t);
    match Top(s.threads[t].stack).help
    case Claim => if Claimable(s.stages[ActsOn(s, t)]) { ClaimItemKeeps(s, t); } else { ReturnsKeep(s, t); }
    case Keep(_, _) => KeepKeeps(s, t);
    case Count(_, _) => CountKeeps(s, t);
    case _ => NotifyKeeps(s, t);
  }

  lemma GoKeeps(s: State, t: nat)
    requires WellFormed(s) && Inv(s) && CanGo(s, t)
    ensures Inv(Go(s, t))
  {
    hide Inv, Go;
    match Top(s.threads[t].stack)
    case Code(Fork(items, rest)) => if Helpers(|items|, s.pool) == 0 { InTurnKeeps(s, t); } else { ForkKeeps(s, t); }
    case Code(Done(_)) => if |s.threads[t].stack| == 1 { RootDoneKeeps(s, t); } else { ItemDoneKeeps(s, t); }
    case Run(_, _, _) => GoRunKeeps(s, t);
    case Job(_, JobEnd) => ActsWithin(s, t); ReturnsKeep(s, t);
    case Job(_, _) => JobQuietKeeps(s, t);
    case Spread(f, left, checked) =>
      ActsWithin(s, t);
      if left == 0 || (if checked then s.stages[f].unspawned <= 0 else !Claimable(s.stages[f])) {
        ReturnsKeep(s, t);
      } else if checked {
        SpawnKeeps(s, t);
      } else {
        JobQuietKeeps(s, t);
      }
    case Help(_, _) => GoHelpKeeps(s, t);
  }

  /** Every step, spurious wakeups included, keeps the invariant. */
  lemma StepKeeps(s: State, s': State)
    requires Inv(s) && StepOrWake(s, s')
    ensures Inv(s')
  {
    hide Inv, Go, Take, WakeUnasked;
    if t :| CanGo(s, t) && s' == Go(s, t) {
      GoKeeps(s, t);
    } else if t, k :| CanTake(s, t, k) && s' == Take(s, t, k) {
      TakeKeeps(s, t, k);
    } else {
      var t :| CanWakeUnasked(s, t) && s' == WakeUnasked(s, t);
      WakeKeeps(s, t);
    }
  }

  /** A run: from an initial state, each state a step after the one before. */
  ghost predicate IsRun(run: seq<State>) {
    && run != []
    && Init(run[0])
    && forall k :: 0 < k < |run| ==> StepOrWake(run[k - 1], run[k])
  }

  /** Any callers may wait for any idle threads, and a run goes on by whatever step a thread can take. */
  lemma RunsGoOn(threads: nat, callers: seq<Body>, pool: nat, run: seq<State>, t: nat, k: nat)
    ensures IsRun([State(seq(threads, _ => Thread(None, [])), [], [],
                         seq(|callers|, i requires 0 <= i < |callers| => Root(callers[i])), pool)])
    ensures IsRun(run) && WellFormed(run[|run| - 1]) ==>
              && (CanGo(run[|run| - 1], t) ==> IsRun(run + [Go(run[|run| - 1], t)]))
              && (CanTake(run[|run| - 1], t, k) ==> IsRun(run + [Take(run[|run| - 1], t, k)]))
              && (CanWakeUnasked(run[|run| - 1], t) ==> IsRun(run + [WakeUnasked(run[|run| - 1], t)]))
  {
    if IsRun(run) && WellFormed(run[|run| - 1]) {
      hide CanGo, Go, Take, CanTake, CanWakeUnasked, WakeUnasked, WellFormed, Init;
      var s := run[|run| - 1];
      if CanGo(s, t) {
        assert StepOrWake(s, Go(s, t));
      }
      if CanTake(s, t, k) {
        assert StepOrWake(s, Take(s, t, k));
      }
      if CanWakeUnasked(s, t) {
        assert StepOrWake(s, WakeUnasked(s, t));
      }
    }
  }

  /** Every state of every run satisfies the invariant. */
  lemma {:induction false} RunKeeps(run: seq<State>)
    requires IsRun(run)
    ensures Inv(run[|run| - 1])
  {
    hide Inv, StepOrWake, Init;
    if |run| == 1 {
      InitKeeps(run[0]);
    } else {
      var before := run[..|run| - 1];
      RunKeeps(before);
      assert before[|before| - 1] == run[|run| - 2];
      StepKeeps(run[|run| - 2], run[|run| - 1]);
    }
  }

  /** A frame anywhere that is inside an item of stage `f`. */
  ghost predicate Inside(s: State, f: nat, t: nat, d: nat) {
    && t < |s.threads| && d < |s.threads[t].stack|
    && s.threads[t].stack[d].Help? && s.threads[t].stack[d].stage == f
    && Holds(s.threads[t].stack[d]).Some?
  }

  /** The indices below `n`. */
  ghost function Indices(n: nat): (indices: set<nat>)
    ensures |indices| == n
    ensures forall i :: i in indices <==> 0 <= i < n
  {
    if n == 0 then {} else Indices(n - 1) + {n - 1}
  }

  /** Claims go through the items in order, each once, whoever makes them; a claimed item is finished or
      some thread is inside it, not both; no two frames are inside one item. */
  lemma ClaimedOnce(run: seq<State>, f: nat)
    requires IsRun(run) && f < |run[|run| - 1].stages|
    ensures var stage := run[|run| - 1].stages[f];
            && stage.begun == UpTo(Claimed(stage))
            && stage.ended.Keys !! stage.held.Keys
            && stage.ended.Keys + stage.held.Keys == Indices(Claimed(stage))
            && stage.unfinished == |stage.items| - |stage.ended|
    ensures var s := run[|run| - 1];
            forall t: nat, d: nat, u: nat, e: nat :: InsideSame(s, f, t, d, u, e) ==> t == u && d == e
  {
    RunKeeps(run);
    InsideOnce(run[|run| - 1], f);
  }

  ghost predicate InsideSame(s: State, f: nat, t: nat, d: nat, u: nat, e: nat) {
    Inside(s, f, t, d) && Inside(s, f, u, e) && Holds(s.threads[t].stack[d]) == Holds(s.threads[u].stack[e])
  }

  lemma InsideOnce(s: State, f: nat)
    requires Inv(s) && f < |s.stages|
    ensures var stage := s.stages[f];
            && stage.begun == UpTo(Claimed(stage))
            && stage.ended.Keys !! stage.held.Keys
            && stage.ended.Keys + stage.held.Keys == Indices(Claimed(stage))
            && stage.unfinished == |stage.items| - |stage.ended|
    ensures forall t: nat, d: nat, u: nat, e: nat :: InsideSame(s, f, t, d, u, e) ==> t == u && d == e
  {
    hide Inv, PlacesOk;
    InvWellFormed(s);
    var stage := s.stages[f];
    StageOf(s, f);
    SplitIndices(stage, s.pool);
    forall t: nat, d: nat, u: nat, e: nat | InsideSame(s, f, t, d, u, e) ensures t == u && d == e {
      FrameOf(s, t, d);
      FrameOf(s, u, e);
    }
  }

  lemma SplitIndices(stage: Stage, pool: nat)
    requires CountsOk(stage, pool)
    ensures stage.ended.Keys !! stage.held.Keys
    ensures stage.ended.Keys + stage.held.Keys == Indices(Claimed(stage))
    ensures |stage.ended| + |stage.held| == Claimed(stage)
  {
    assert stage.ended.Keys + stage.held.Keys == Indices(Claimed(stage));
    assert |stage.ended.Keys + stage.held.Keys| == |stage.ended.Keys| + |stage.held.Keys|;
  }

  /** When a fork returns, every item ran, once, no thread is inside one, and the panic it raises is the
      first one kept: there is one exactly when some item panicked, and it is some item's own. */
  lemma ReturnsAfterEveryItem(run: seq<State>, t: nat)
    requires IsRun(run)
    requires WellFormed(run[|run| - 1]) && CanGo(run[|run| - 1], t)
    requires Top(run[|run| - 1].threads[t].stack).Run? && Top(run[|run| - 1].threads[t].stack).run.Returning?
    ensures var s := run[|run| - 1];
            var f := Top(s.threads[t].stack).stage;
            var stage := s.stages[f];
            && stage.begun == UpTo(|stage.items|)
            && stage.ended.Keys == Indices(|stage.items|)
            && (forall u: nat, d: nat :: !Inside(s, f, u, d))
            && (stage.panic.Some? <==> exists i :: i in stage.ended && stage.ended[i].Some?)
            && (stage.panic.Some? ==> stage.kept != [] && stage.panic.value == stage.kept[0].1
                                      && stage.kept[0].0 in stage.ended && stage.ended[stage.kept[0].0] == stage.panic)
            && Go(s, t).stages[f].returned
            && |s.threads[t].stack| > 1
            && Go(s, t).threads[t].stack == if stage.panic.None? then Below(s.threads[t].stack)
                                            else Below(Below(s.threads[t].stack)) + [Code(Done(stage.panic))]
  {
    RunKeeps(run);
    ReturnsWith(run[|run| - 1], t);
  }

  lemma ReturnsWith(s: State, t: nat)
    requires WellFormed(s) && Inv(s) && CanGo(s, t)
    requires Top(s.threads[t].stack).Run? && Top(s.threads[t].stack).run.Returning?
    ensures var f := Top(s.threads[t].stack).stage;
            var stage := s.stages[f];
            && stage.begun == UpTo(|stage.items|)
            && stage.ended.Keys == Indices(|stage.items|)
            && (forall u: nat, d: nat :: !Inside(s, f, u, d))
            && (stage.panic.Some? <==> exists i :: i in stage.ended && stage.ended[i].Some?)
            && (stage.panic.Some? ==> stage.kept != [] && stage.panic.value == stage.kept[0].1
                                      && stage.kept[0].0 in stage.ended && stage.ended[stage.kept[0].0] == stage.panic)
            && |s.threads[t].stack| > 1
  {
    hide Inv, WellFormed;
    ActsWithin(s, t);
    var f := ActsOn(s, t);
    var stage := s.stages[f];
    FrameOf(s, t, |s.threads[t].stack| - 1);
    StageOf(s, f);
    NothingHeld(s, f);
    if stage.kept != [] {
      assert KeptOk(s, stage, stage.kept[0].0, stage.kept[0].1);
    }
  }

  /** A stage with nothing unfinished: every item ended and no frame is inside one. */
  lemma NothingHeld(s: State, f: nat)
    requires Inv(s) && f < |s.stages| && s.stages[f].unfinished == 0
    ensures s.stages[f].held == map[]
    ensures Claimed(s.stages[f]) == |s.stages[f].items|
    ensures s.stages[f].ended.Keys == Indices(|s.stages[f].items|)
    ensures forall u: nat, d: nat :: !Inside(s, f, u, d)
  {
    hide Inv, PlacesOk;
    InvWellFormed(s);
    var stage := s.stages[f];
    StageOf(s, f);
    SplitIndices(stage, s.pool);
    assert |stage.held| == 0;
    assert stage.held == map[];
    forall u: nat, d: nat ensures !Inside(s, f, u, d) {
      if Inside(s, f, u, d) {
        FrameOf(s, u, d);
      }
    }
  }

  /** Once a fork returned, no thread is inside it and none can enter: nothing is left to claim. */
  lemma NeverLate(run: seq<State>, f: nat)
    requires IsRun(run) && f < |run[|run| - 1].stages| && run[|run| - 1].stages[f].returned
    ensures var s := run[|run| - 1]; forall u: nat, d: nat :: !Inside(s, f, u, d)
    ensures run[|run| - 1].stages[f].next >= |run[|run| - 1].stages[f].items|
  {
    RunKeeps(run);
    StageOf(run[|run| - 1], f);
    NothingHeld(run[|run| - 1], f);
  }

  /** No fork spawns more helpers than it may: fewer than it has items, and than the pool has threads. */
  lemma SpawnsAtMost(run: seq<State>, f: nat)
    requires IsRun(run) && f < |run[|run| - 1].stages|
    ensures var s := run[|run| - 1];
            var spawned := s.stages[f].spawned;
            && spawned <= Helpers(|s.stages[f].items|, s.pool)
            && (spawned > 0 ==> spawned < |s.stages[f].items| && spawned < s.pool)
  {
    RunKeeps(run);
    StageOf(run[|run| - 1], f);
  }

  /** A thread runs items of one query only: every fork it is in, waits for or helps is of its own. */
  lemma OwnQueryOnly(run: seq<State>, t: nat, d: nat)
    requires IsRun(run)
    requires var s := run[|run| - 1];
             t < |s.threads| && d < |s.threads[t].stack| && !s.threads[t].stack[d].Code?
    ensures var s := run[|run| - 1];
            && s.threads[t].stack[d].stage < |s.stages|
            && s.threads[t].query == Some(s.stages[s.threads[t].stack[d].stage].query)
  {
    RunKeeps(run);
    FrameOf(run[|run| - 1], t, d);
  }

  /** Thread `t` sleeps on the condition variable for fork `f`, and no one has notified it since. */
  ghost predicate Asleep(s: State, t: nat, f: nat)
    requires WellFormed(s)
  {
    && t < |s.threads| && s.threads[t].stack != []
    && var top := Top(s.threads[t].stack);
       top.Run? && top.stage == f && top.run.Sleep? && top.run.epoch == QueryOf(s, f).epoch
  }

  /** No wakeup is lost: a waiter sleeps on a fork without unfinished items only while the last helper
      is at its notification, and beside a claimable open fork only while its opener is at the announcement. */
  lemma NoLostWakeup(run: seq<State>, t: nat, f: nat, g: nat)
    requires IsRun(run) && WellFormed(run[|run| - 1]) && Asleep(run[|run| - 1], t, f)
    requires g in QueryOf(run[|run| - 1], f).open
    ensures var s := run[|run| - 1];
            s.stages[f].unfinished == 0 ==>
              exists u, pc :: (pc == NotifyLock || pc == NotifyAll) && Innermost(s, u, Help(f, pc))
    ensures var s := run[|run| - 1];
            s.stages[g].next < |s.stages[g].items| ==>
              exists u, entered :: Innermost(s, u, Run(g, entered, Announcing))
  {
    RunKeeps(run);
    var s := run[|run| - 1];
    FrameOf(s, t, |s.threads[t].stack| - 1);
    SleeperIsCovered(s, t, f, g);
  }

  lemma SleeperIsCovered(s: State, t: nat, f: nat, g: nat)
    requires Inv(s) && WellFormed(s) && Asleep(s, t, f) && g in QueryOf(s, f).open
    ensures s.stages[f].unfinished == 0 ==>
              exists u, pc :: (pc == NotifyLock || pc == NotifyAll) && Innermost(s, u, Help(f, pc))
    ensures Claimable(s.stages[g]) ==> exists u, entered :: Innermost(s, u, Run(g, entered, Announcing))
  {
    hide Inv, WellFormed, CountsOk;
    ActsWithin(s, t);
    FrameOf(s, t, |s.threads[t].stack| - 1);
    StageOf(s, f);
    NoticeOf(s, f);
    var query := QueryOf(s, f);
    var k :| 0 <= k < |query.open| && query.open[k] == g;
    if Claimable(s.stages[g]) {
      assert !s.stages[g].announced;
      AnnouncerOf(s, f, g);
    }
    if s.stages[f].unfinished == 0 {
      var notice := s.stages[f].notice;
      assert notice.Locking? || notice.Sending?;
      assert NoticeOk(s, f, s.stages[f]);
      assert Innermost(s, notice.thread, Help(f, NotifyLock)) || Innermost(s, notice.thread, Help(f, NotifyAll));
    }
  }

  /** The frame of an open stage that is not announced is about to announce it. */
  lemma AnnouncerOf(s: State, f: nat, g: nat)
    requires Inv(s) && WellFormed(s) && f < |s.stages| && g < |s.stages| && g in QueryOf(s, f).open
    requires !s.stages[g].announced && Claimable(s.stages[g])
    ensures exists u, entered :: Innermost(s, u, Run(g, entered, Announcing))
  {
    hide Inv, WellFormed;
    StageOf(s, g);
    OpenOf(s, f);
    NotReturned(s.stages[g], s.pool);
    var owner := s.stages[g].owner;
    assert OwnerOk(s, g, s.stages[g]);
    FrameOf(s, owner.thread, owner.depth);
    var query := QueryOf(s, f);
    var k :| 0 <= k < |query.open| && query.open[k] == g;
    assert At(s, owner).run.Announcing?;
    assert Innermost(s, owner.thread, Run(g, At(s, owner).entered, Announcing));
  }

  lemma NotReturned(stage: Stage, pool: nat)
    requires CountsOk(stage, pool) && Claimable(stage)
    ensures !stage.returned
  {
  }
}
