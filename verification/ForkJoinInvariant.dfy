/**
 What every reachable state of the fork-join scheduler satisfies. The invariant has a
 part for each frame, each thread, each stage and each query; a step changes one
 thread, at most one stage and at most one query, and `Rely` says what every other
 thread may still count on.
 */
module ForkJoinInvariant {
  import opened Wrappers
  import opened ForkJoin

  /** The claimed item a frame holds until it is counted finished. */
  function Holds(frame: Frame): Option<nat> {
    match frame
    case Help(_, Running(i)) => Some(i)
    case Help(_, Keep(i, _)) => Some(i)
    case Help(_, Count(i, _)) => Some(i)
    case _ => None
  }

  predicate HasPlace(s: State, place: Place) {
    place.thread < |s.threads| && place.depth < |s.threads[place.thread].stack|
  }

  function At(s: State, place: Place): Frame
    requires HasPlace(s, place)
  {
    s.threads[place.thread].stack[place.depth]
  }

  /** Whether a frame at `pc` may have calls above it. */
  predicate Calling(frame: Frame) {
    match frame
    case Code(_) => true
    case Run(_, _, pc) => pc.ToHelp? || pc.ToFinish? || pc.WaitLock?
    case Job(_, pc) => !pc.JobSpread?
    case Spread(_, _, _) => false
    case Help(_, pc) => pc.Running?
  }

  /** No item of the announced stages in `open` is left to claim. */
  ghost predicate NoneLeft(stages: seq<Stage>, open: seq<nat>) {
    forall j :: 0 <= j < |open| ==> open[j] < |stages| && (stages[open[j]].announced ==> !Claimable(stages[open[j]]))
  }

  /** The first `k` stages of `open` have no item left to claim. */
  ghost predicate Passed(stages: seq<Stage>, open: seq<nat>, k: nat) {
    k <= |open| && forall j :: 0 <= j < k ==> open[j] < |stages| && !Claimable(stages[open[j]])
  }

  /** What the frame `run` of a fork counts on, at `place`; `query` is the fork's. */
  ghost predicate RunOk(stages: seq<Stage>, query: Query, place: Place, run: Frame)
    requires run.Run? && run.stage < |stages|
  {
    var stage := stages[run.stage];
    var pc := run.run;
    && stage.owner == place
    && !stage.returned
    && run.entered == (place.depth == 1)
    && (stage.announced <==> !pc.Opening? && !pc.Announcing?)
    && (!pc.Opening? && !pc.Returning? <==> run.stage in query.open)
    && (pc.WaitCheck? || pc.Scan? ==> query.holder == Some(place.thread))
    && (pc.Scan? ==> (stage.notice.NotYet? || stage.notice.Locking?) && Passed(stages, query.open, pc.at))
    && (pc.Sleep? ==> pc.epoch <= query.epoch)
    && (pc.Sleep? && pc.epoch == query.epoch ==> !stage.notice.Sent? && NoneLeft(stages, query.open))
    && (pc.Closing? || pc.Returning? ==> stage.unfinished == 0)
  }

  /** What a helper's frame counts on of its stage, at `place`. */
  ghost predicate HelpOk(stage: Stage, place: Place, help: Frame)
    requires help.Help?
  {
    && (Holds(help).Some? ==> Holds(help).value in stage.held && stage.held[Holds(help).value] == place)
    && (help.help.Count? && help.help.outcome.Some? ==> (help.help.index, help.help.outcome.value) in stage.kept)
    && (help.help.NotifyLock? ==> stage.notice == Locking(place.thread))
    && (help.help.NotifyAll? ==> stage.notice == Sending(place.thread))
  }

  ghost predicate CountsOn(s: State, place: Place, frame: Frame)
    requires WellFormed(s) && (!frame.Code? ==> frame.stage < |s.stages|)
  {
    && (frame.Run? ==> RunOk(s.stages, QueryOf(s, frame.stage), place, frame))
    && (frame.Help? ==> HelpOk(s.stages[frame.stage], place, frame))
  }

  /** What the frame at depth `d` sits on, and whether it may have calls above it. */
  ghost predicate ShapeOk(thread: Thread, stages: seq<Stage>, d: nat)
    requires d < |thread.stack|
  {
    var frame := thread.stack[d];
    && (d < |thread.stack| - 1 ==> Calling(frame))
    && (frame.Help? && frame.help.Running? ==> d < |thread.stack| - 1)
    && (!frame.Code? ==> frame.stage < |stages| && thread.query == Some(stages[frame.stage].query))
    && match frame
       case Code(_) => d > 0 ==> thread.stack[d - 1].Help? && thread.stack[d - 1].help.Running?
       case Run(_, _, _) => d > 0 && thread.stack[d - 1].Code?
       case Job(_, _) => d == 0
       case Spread(_, _, _) => d > 0 && (thread.stack[d - 1].Run? || thread.stack[d - 1].Job?)
       case Help(_, _) => d > 0 && (thread.stack[d - 1].Run? || thread.stack[d - 1].Job?)
  }

  /** The frame at depth `d` of thread `t`. */
  ghost predicate FrameOk(s: State, t: nat, d: nat)
    requires WellFormed(s) && t < |s.threads| && d < |s.threads[t].stack|
  {
    && ShapeOk(s.threads[t], s.stages, d)
    && CountsOn(s, Place(t, d), s.threads[t].stack[d])
  }

  /** A fork that runs above an item was opened after that item's. */
  ghost predicate Ordered(stack: seq<Frame>) {
    forall i, j :: 0 <= i < j < |stack| && stack[i].Help? && stack[j].Run? ==> stack[i].stage < stack[j].stage
  }

  ghost predicate ThreadOk(s: State, t: nat)
    requires WellFormed(s) && t < |s.threads|
  {
    var thread := s.threads[t];
    && (thread.query.None? <==> thread.stack == [] || (|thread.stack| == 1 && thread.stack[0].Code?))
    && Ordered(thread.stack)
    && forall d :: 0 <= d < |thread.stack| ==> FrameOk(s, t, d)
  }

  /** The indices below `n`, in order. */
  function UpTo(n: nat): seq<nat> {
    seq(n, i => i)
  }

  /** How many items of a stage were claimed. */
  function Claimed(stage: Stage): nat {
    Min(stage.next, |stage.items|)
  }

  /** Each claimed item is held or has ended, and not both. */
  ghost predicate IndicesOk(held: map<nat, Place>, ended: map<nat, Option<Panic>>, claimed: nat) {
    && (forall i :: i in held ==> i < claimed && i !in ended)
    && (forall i :: i in ended ==> i < claimed)
    && (forall i :: 0 <= i < claimed ==> i in held || i in ended)
  }

  /** The counters and the history of one stage agree. */
  ghost predicate CountsOk(stage: Stage, pool: nat) {
    && stage.unfinished == |stage.items| - Claimed(stage) + |stage.held|
    && stage.begun == UpTo(Claimed(stage))
    && IndicesOk(stage.held, stage.ended, Claimed(stage))
    && (stage.notice.NotYet? <==> stage.unfinished > 0)
    && (!stage.returned ==> stage.panic == if stage.kept == [] then None else Some(stage.kept[0].1))
    && (forall i :: i in stage.ended && stage.ended[i].Some? ==> (i, stage.ended[i].value) in stage.kept)
    && stage.spawned + (if stage.unspawned > 0 then stage.unspawned else 0) == Helpers(|stage.items|, pool)
    && (stage.returned ==> stage.unfinished == 0)
  }

  /** Until a fork returns, its own frame is where it was pushed. */
  ghost predicate OwnerOk(s: State, f: nat, stage: Stage) {
    stage.returned || (HasPlace(s, stage.owner) && At(s, stage.owner).Run? && At(s, stage.owner).stage == f)
  }

  /** The innermost frame of thread `t` is `frame`. */
  ghost predicate Innermost(s: State, t: nat, frame: Frame) {
    t < |s.threads| && s.threads[t].stack != [] && Top(s.threads[t].stack) == frame
  }

  ghost predicate NoticeOk(s: State, f: nat, stage: Stage) {
    && (stage.notice.Locking? ==> Innermost(s, stage.notice.thread, Help(f, NotifyLock)))
    && (stage.notice.Sending? ==> Innermost(s, stage.notice.thread, Help(f, NotifyAll)))
  }

  /** Where a stage's history points, a frame agrees. */
  ghost predicate PlacesOk(s: State, f: nat, stage: Stage) {
    && OwnerOk(s, f, stage)
    && NoticeOk(s, f, stage)
    && (forall i :: i in stage.held ==> HeldOk(s, f, i, stage.held[i]))
    && (forall k :: 0 <= k < |stage.kept| ==> KeptOk(s, stage, stage.kept[k].0, stage.kept[k].1))
  }

  ghost predicate StageOk(s: State, f: nat)
    requires f < |s.stages|
  {
    CountsOk(s.stages[f], s.pool) && PlacesOk(s, f, s.stages[f])
  }

  /** The frame at `place` holds item `i` of stage `f`. */
  ghost predicate HeldOk(s: State, f: nat, i: nat, place: Place) {
    HasPlace(s, place) && At(s, place).Help? && At(s, place).stage == f && Holds(At(s, place)) == Some(i)
  }

  /** A kept panic is that of a finished item, or of one about to be counted. */
  ghost predicate KeptOk(s: State, stage: Stage, i: nat, panic: Panic) {
    || (i in stage.ended && stage.ended[i] == Some(panic))
    || (i in stage.held && HasPlace(s, stage.held[i])
        && At(s, stage.held[i]).Help? && At(s, stage.held[i]).help == Count(i, Some(panic)))
  }

  ghost predicate QueryOk(s: State, q: nat)
    requires WellFormed(s) && q < |s.queries|
  {
    var query := s.queries[q];
    && (forall k :: 0 <= k < |query.open| ==> s.stages[query.open[k]].query == q)
    && (query.holder.Some? ==> HoldsLock(s, query.holder.value, q))
  }

  /** Thread `t` is inside `wait`'s critical section of query `q`. */
  ghost predicate HoldsLock(s: State, t: nat, q: nat)
    requires WellFormed(s)
  {
    && t < |s.threads|
    && s.threads[t].stack != []
    && var top := Top(s.threads[t].stack);
       && top.Run?
       && (top.run.WaitCheck? || top.run.Scan?)
       && s.stages[top.stage].query == q
  }

  ghost predicate QueriesOk(s: State)
    requires WellFormed(s)
  {
    forall q :: 0 <= q < |s.queries| ==> QueryOk(s, q)
  }

  ghost predicate Inv(s: State) {
    && WellFormed(s)
    && (forall t :: 0 <= t < |s.threads| ==> ThreadOk(s, t))
    && (forall f :: 0 <= f < |s.stages| ==> StageOk(s, f))
    && QueriesOk(s)
  }

  // ----- what a step of the frame at `actor` leaves to the other frames -----

  ghost predicate NoticeRely(was: Stage, now: Stage, query: Query, query': Query, actor: Place) {
    || now.notice == was.notice
    || (was.notice.NotYet? && now.notice == Locking(actor.thread))
    || (was.notice == Locking(actor.thread) && now.notice == Sending(actor.thread) && query.holder.None?)
    || (was.notice == Sending(actor.thread) && now.notice.Sent? && query'.epoch > query.epoch)
  }

  /** How a stage may change; `query` is its query before the step, `query'` after it. */
  ghost predicate StageRely(was: Stage, now: Stage, query: Query, query': Query, actor: Place) {
    && now.query == was.query && now.owner == was.owner && now.items == was.items
    && was.next <= now.next
    && now.unfinished <= was.unfinished
    && (was.owner != actor ==> now.returned == was.returned && now.announced == was.announced)
    && (now.announced != was.announced ==> query'.epoch > query.epoch)
    && (forall i :: i in was.held && was.held[i] != actor ==> i in now.held && now.held[i] == was.held[i])
    && (forall x :: x in was.kept ==> x in now.kept)
    && NoticeRely(was, now, query, query', actor)
  }

  /** How a query may change between the stages `stages` and `stages'`. */
  ghost predicate QueryRely(was: Query, now: Query, stages: seq<Stage>, stages': seq<Stage>, actor: Place) {
    && was.epoch <= now.epoch
    && (was.holder.Some? && was.holder != Some(actor.thread) ==> now.holder == was.holder && now.open == was.open)
    && (forall f :: f in was.open && f < |stages| && stages[f].owner != actor ==> f in now.open)
    && (forall f :: f in now.open ==>
          f in was.open || (f < |stages'| && !stages'[f].announced && stages'[f].owner == actor))
  }

  ghost predicate Rely(s: State, s': State, actor: Place)
    requires WellFormed(s)
  {
    && WellFormed(s')
    && actor.thread < |s.threads| == |s'.threads|
    && s'.pool == s.pool
    && |s.stages| <= |s'.stages|
    && |s.queries| <= |s'.queries|
    && (forall u :: 0 <= u < |s.threads| && u != actor.thread ==> s'.threads[u] == s.threads[u])
    && (forall f :: 0 <= f < |s.stages| ==>
          var q := s.stages[f].query;
          StageRely(s.stages[f], s'.stages[f], s.queries[q], s'.queries[q], actor))
    && (forall q :: 0 <= q < |s.queries| ==> QueryRely(s.queries[q], s'.queries[q], s.stages, s'.stages, actor))
  }

  /** A fork's frame that did not act, and, on the acting thread, has a call above it. */
  lemma OtherRunKeeps(s: State, s': State, actor: Place, place: Place, run: Frame)
    requires WellFormed(s) && QueriesOk(s) && Rely(s, s', actor)
    requires place != actor && (place.thread == actor.thread ==> Calling(run))
    requires run.Run? && run.stage < |s.stages| && RunOk(s.stages, QueryOf(s, run.stage), place, run)
    ensures RunOk(s'.stages, QueryOf(s', run.stage), place, run)
  {
    var q := s.stages[run.stage].query;
    var (was, now) := (s.queries[q], s'.queries[q]);
    assert QueryRely(was, now, s.stages, s'.stages, actor);
    assert StageRely(s.stages[run.stage], s'.stages[run.stage], was, now, actor);
    if run.run.Scan? {
      forall j | 0 <= j < run.run.at ensures now.open[j] < |s'.stages| && !Claimable(s'.stages[now.open[j]]) {
        assert was.open[j] < |s.stages| && s'.stages[was.open[j]].items == s.stages[was.open[j]].items;
      }
    }
    if run.run.Sleep? && run.run.epoch == now.epoch {
      forall j | 0 <= j < |now.open|
        ensures now.open[j] < |s'.stages| && (s'.stages[now.open[j]].announced ==> !Claimable(s'.stages[now.open[j]]))
      {
        var f := now.open[j];
        if f in was.open {
          var k :| 0 <= k < |was.open| && was.open[k] == f;
          assert QueryOk(s, q) && s.stages[was.open[k]].query == q;
          assert StageRely(s.stages[f], s'.stages[f], was, now, actor);
        }
      }
    }
  }

  lemma OtherFrameKeeps(s: State, s': State, actor: Place, u: nat, d: nat)
    requires WellFormed(s) && QueriesOk(s) && Rely(s, s', actor)
    requires u < |s.threads| && d < |s.threads[u].stack| && FrameOk(s, u, d)
    requires Place(u, d) != actor && (u == actor.thread ==> Calling(s.threads[u].stack[d]))
    requires d < |s'.threads[u].stack| && s'.threads[u].stack[..d + 1] == s.threads[u].stack[..d + 1]
    requires u == actor.thread && s.threads[u].stack[d].Help? ==> d < |s'.threads[u].stack| - 1
    requires !s.threads[u].stack[d].Code? ==> s'.threads[u].query == s.threads[u].query
    ensures FrameOk(s', u, d)
  {
    var frame := s.threads[u].stack[d];
    assert s'.threads[u].stack[..d + 1][d] == frame;
    if d > 0 {
      assert s'.threads[u].stack[..d + 1][d - 1] == s.threads[u].stack[..d + 1][d - 1];
    }
    if !frame.Code? {
      var q := s.stages[frame.stage].query;
      assert StageRely(s.stages[frame.stage], s'.stages[frame.stage], s.queries[q], s'.queries[q], actor);
    }
    if frame.Run? {
      OtherRunKeeps(s, s', actor, Place(u, d), frame);
    }
    if frame.Help? {
      var stage := s.stages[frame.stage];
      var q := stage.query;
      OtherHelpKeeps(stage, s'.stages[frame.stage], s.queries[q], s'.queries[q], actor, Place(u, d), frame);
    }
  }

  lemma OtherHelpKeeps(was: Stage, now: Stage, query: Query, query': Query, actor: Place, place: Place, help: Frame)
    requires StageRely(was, now, query, query', actor) && help.Help? && HelpOk(was, place, help)
    requires place != actor && (place.thread == actor.thread ==> Calling(help))
    ensures HelpOk(now, place, help)
  {
  }

  lemma OtherThreadKeeps(s: State, s': State, actor: Place, u: nat)
    requires WellFormed(s) && QueriesOk(s) && Rely(s, s', actor)
    requires u < |s.threads| && u != actor.thread && ThreadOk(s, u)
    ensures ThreadOk(s', u)
  {
    assert s'.threads[u] == s.threads[u];
    forall d | 0 <= d < |s'.threads[u].stack| ensures FrameOk(s', u, d) {
      assert FrameOk(s, u, d);
      OtherFrameKeeps(s, s', actor, u, d);
    }
  }

  /** What `StageOk` of a stage counts on about the acting thread's frame at depth `d`. */
  ghost predicate FrameKept(s: State, s': State, t: nat, d: nat)
    requires t < |s.threads| == |s'.threads| && d < |s.threads[t].stack|
  {
    var (was, stack) := (s.threads[t].stack[d], s'.threads[t].stack);
    && (was.Run? ==> d < |stack| && stack[d].Run? && stack[d].stage == was.stage)
    && (Holds(was).Some? ==> d < |stack| && stack[d].Help? && stack[d].stage == was.stage
                             && Holds(stack[d]) == Holds(was) && (was.help.Count? ==> stack[d] == was))
    && (was.Help? && (was.help.NotifyLock? || was.help.NotifyAll?) ==> |stack| == d + 1 && stack[d] == was)
  }

  /** Every frame of stage `f` on thread `t` is kept, and no other thread changed. */
  ghost predicate FramesKept(s: State, s': State, t: nat, f: nat)
    requires t < |s.threads| == |s'.threads|
  {
    && (forall u :: 0 <= u < |s.threads| && u != t ==> s'.threads[u] == s.threads[u])
    && (forall d :: 0 <= d < |s.threads[t].stack| && !s.threads[t].stack[d].Code? && s.threads[t].stack[d].stage == f
          ==> FrameKept(s, s', t, d))
  }

  lemma HeldKeeps(s: State, s': State, t: nat, f: nat, i: nat, place: Place)
    requires t < |s.threads| == |s'.threads| && FramesKept(s, s', t, f)
    requires HeldOk(s, f, i, place)
    ensures HeldOk(s', f, i, place)
    ensures At(s, place).help.Count? ==> At(s', place) == At(s, place)
  {
    if place.thread == t {
      assert FrameKept(s, s', t, place.depth);
    }
  }

  lemma PlacesKeep(s: State, s': State, t: nat, f: nat, stage: Stage)
    requires t < |s.threads| == |s'.threads| && FramesKept(s, s', t, f)
    requires PlacesOk(s, f, stage)
    ensures PlacesOk(s', f, stage)
  {
    forall i | i in stage.held ensures HeldOk(s', f, i, stage.held[i]) {
      HeldKeeps(s, s', t, f, i, stage.held[i]);
    }
    forall k | 0 <= k < |stage.kept| ensures KeptOk(s', stage, stage.kept[k].0, stage.kept[k].1) {
      KeptKeeps(s, s', t, f, stage, stage.kept[k].0, stage.kept[k].1);
    }
    OwnerKeeps(s, s', t, f, stage);
    NoticeKeeps(s, s', t, f, stage);
  }

  lemma OwnerKeeps(s: State, s': State, t: nat, f: nat, stage: Stage)
    requires t < |s.threads| == |s'.threads| && FramesKept(s, s', t, f)
    requires OwnerOk(s, f, stage)
    ensures OwnerOk(s', f, stage)
  {
    if !stage.returned && stage.owner.thread == t {
      assert FrameKept(s, s', t, stage.owner.depth);
    }
  }

  lemma NoticeKeeps(s: State, s': State, t: nat, f: nat, stage: Stage)
    requires t < |s.threads| == |s'.threads| && FramesKept(s, s', t, f)
    requires NoticeOk(s, f, stage)
    ensures NoticeOk(s', f, stage)
  {
    if (stage.notice.Locking? || stage.notice.Sending?) && stage.notice.thread == t {
      assert FrameKept(s, s', t, |s.threads[t].stack| - 1);
    }
  }

  lemma KeptKeeps(s: State, s': State, t: nat, f: nat, stage: Stage, i: nat, panic: Panic)
    requires t < |s.threads| == |s'.threads| && FramesKept(s, s', t, f)
    requires forall i :: i in stage.held ==> HeldOk(s, f, i, stage.held[i])
    requires KeptOk(s, stage, i, panic)
    ensures KeptOk(s', stage, i, panic)
  {
    if !(i in stage.ended && stage.ended[i] == Some(panic)) {
      HeldKeeps(s, s', t, f, i, stage.held[i]);
    }
  }

  /** A query no step touched, and that the acting thread does not hold the lock of. */
  lemma OtherQueryKeeps(s: State, s': State, actor: Place, q: nat)
    requires WellFormed(s) && Rely(s, s', actor)
    requires q < |s.queries| && s'.queries[q] == s.queries[q] && QueryOk(s, q)
    requires s.queries[q].holder != Some(actor.thread)
    ensures QueryOk(s', q)
  {
    var query := s.queries[q];
    forall k | 0 <= k < |query.open| ensures s'.stages[query.open[k]].query == q {
      assert s'.stages[query.open[k]].query == s.stages[query.open[k]].query;
    }
    if query.holder.Some? {
      var u := query.holder.value;
      assert HoldsLock(s, u, q) && s'.threads[u] == s.threads[u];
      var f := Top(s.threads[u].stack).stage;
      assert s'.stages[f].query == s.stages[f].query;
    }
  }

  lemma Assemble(s: State, s': State, actor: Place)
    requires Inv(s) && Rely(s, s', actor) && ThreadOk(s', actor.thread)
    requires forall f :: 0 <= f < |s'.stages| ==> StageOk(s', f)
    requires QueriesOk(s')
    ensures Inv(s')
  {
    forall u | 0 <= u < |s'.threads| ensures ThreadOk(s', u) {
      if u != actor.thread {
        assert ThreadOk(s, u);
        OtherThreadKeeps(s, s', actor, u);
      }
    }
  }
}
