/** Every step of the fork-join scheduler keeps its invariant. */
module ForkJoinSteps {
  import opened Wrappers
  import opened ForkJoin
  import opened ForkJoinInvariant

  /** `s'` differs from `s` at thread `t`, at most at stage `f` and at most at query `q`, and in what it
      adds: an index past the end names none. */
  ghost predicate Touches(s: State, s': State, t: nat, f: nat, q: nat) {
    && t < |s.threads| == |s'.threads|
    && |s.stages| <= |s'.stages|
    && |s.queries| <= |s'.queries|
    && s'.pool == s.pool
    && (forall u :: 0 <= u < |s.threads| && u != t ==> s'.threads[u] == s.threads[u])
    && (forall g :: 0 <= g < |s.stages| && g != f ==> s'.stages[g] == s.stages[g])
    && (forall r :: 0 <= r < |s.queries| && r != q ==> s'.queries[r] == s.queries[r])
  }

  lemma TouchedRely(s: State, s': State, actor: Place, f: nat, q: nat)
    requires WellFormed(s) && WellFormed(s') && Touches(s, s', actor.thread, f, q)
    requires f < |s.stages| ==> q == s.stages[f].query
    requires f < |s.stages| ==> StageRely(s.stages[f], s'.stages[f], s.queries[q], s'.queries[q], actor)
    requires q < |s.queries| ==> QueryRely(s.queries[q], s'.queries[q], s.stages, s'.stages, actor)
    ensures Rely(s, s', actor)
  {
    forall r | 0 <= r < |s.queries| ensures QueryRely(s.queries[r], s'.queries[r], s.stages, s'.stages, actor) {
      if r != q {
        assert s'.queries[r] == s.queries[r];
      }
    }
    forall g | 0 <= g < |s.stages|
      ensures var r := s.stages[g].query; StageRely(s.stages[g], s'.stages[g], s.queries[r], s'.queries[r], actor)
    {
      if g != f {
        assert s'.stages[g] == s.stages[g];
      }
    }
  }

  /** The frames below depth `k` stay as they should, if only frames from there on changed. */
  lemma LowerFramesKeep(s: State, s': State, actor: Place, k: nat)
    requires Inv(s) && Rely(s, s', actor)
    requires k <= actor.depth < |s.threads[actor.thread].stack|
    requires k <= |s'.threads[actor.thread].stack|
    requires k == |s'.threads[actor.thread].stack| > 0 ==> !s.threads[actor.thread].stack[k - 1].Help?
    requires s'.threads[actor.thread].stack[..k] == s.threads[actor.thread].stack[..k]
    requires forall d :: 0 <= d < k && !s.threads[actor.thread].stack[d].Code? ==>
               s'.threads[actor.thread].query == s.threads[actor.thread].query
    ensures forall d :: 0 <= d < k ==> FrameOk(s', actor.thread, d)
  {
    var (stack, stack') := (s.threads[actor.thread].stack, s'.threads[actor.thread].stack);
    assert ThreadOk(s, actor.thread);
    forall d | 0 <= d < k ensures FrameOk(s', actor.thread, d) {
      assert FrameOk(s, actor.thread, d);
      assert stack'[..d + 1] == stack'[..k][..d + 1] == stack[..k][..d + 1] == stack[..d + 1];
      OtherFrameKeeps(s, s', actor, actor.thread, d);
    }
  }

  /** The invariant after a step, from what is left to check of the frames from depth `k` on, of the
      stage and of the query the step touched. */
  lemma Concludes(s: State, s': State, actor: Place, k: nat, f: nat, q: nat)
    requires Inv(s) && WellFormed(s') && Touches(s, s', actor.thread, f, q)
    requires f < |s.stages| ==> q == s.stages[f].query && StageOk(s', f)
                                && StageRely(s.stages[f], s'.stages[f], s.queries[q], s'.queries[q], actor)
    requires q < |s.queries| ==> QueryOk(s', q) && QueryRely(s.queries[q], s'.queries[q], s.stages, s'.stages, actor)
    requires forall g :: |s.stages| <= g < |s'.stages| ==> StageOk(s', g)
    requires forall r :: |s.queries| <= r < |s'.queries| ==> QueryOk(s', r)
    requires forall g :: 0 <= g < |s.stages| && g != f ==> FramesKept(s, s', actor.thread, g)
    requires forall r :: 0 <= r < |s.queries| && r != q ==> s.queries[r].holder != Some(actor.thread)
    requires k <= actor.depth < |s.threads[actor.thread].stack|
    requires k <= |s'.threads[actor.thread].stack|
    requires k == |s'.threads[actor.thread].stack| > 0 ==> !s.threads[actor.thread].stack[k - 1].Help?
    requires s'.threads[actor.thread].stack[..k] == s.threads[actor.thread].stack[..k]
    requires forall d :: 0 <= d < k && !s.threads[actor.thread].stack[d].Code? ==>
               s'.threads[actor.thread].query == s.threads[actor.thread].query
    requires Ordered(s'.threads[actor.thread].stack)
    requires s'.threads[actor.thread].query.None? <==>
               s'.threads[actor.thread].stack == []
               || (|s'.threads[actor.thread].stack| == 1 && s'.threads[actor.thread].stack[0].Code?)
    requires forall d :: k <= d < |s'.threads[actor.thread].stack| ==> FrameOk(s', actor.thread, d)
    ensures Inv(s')
  {
    TouchedRely(s, s', actor, f, q);
    LowerFramesKeep(s, s', actor, k);
    assert ThreadOk(s', actor.thread);
    forall g | 0 <= g < |s'.stages| ensures StageOk(s', g) {
      if g < |s.stages| && g != f {
        assert StageOk(s, g);
        PlacesKeep(s, s', actor.thread, g, s.stages[g]);
      }
    }
    forall r | 0 <= r < |s'.queries| ensures QueryOk(s', r) {
      if r < |s.queries| && r != q {
        OtherQueryKeeps(s, s', actor, r);
      }
    }
    Assemble(s, s', actor);
  }

  /** Thread `t` holds no lock but, perhaps, that of its innermost frame's query. */
  lemma HoldsOnlyItsOwn(s: State, t: nat)
    requires Inv(s) && t < |s.threads|
    ensures forall r :: 0 <= r < |s.queries| && s.queries[r].holder == Some(t) ==> HoldsLock(s, t, r)
  {
    forall r | 0 <= r < |s.queries| && s.queries[r].holder == Some(t) ensures HoldsLock(s, t, r) {
      assert QueryOk(s, r);
    }
  }

  /** Below depth `k` nothing changed, so the frames from there on decide what is kept. */
  lemma KeptAbove(s: State, s': State, t: nat, k: nat, f: nat)
    requires Inv(s) && t < |s.threads| == |s'.threads| && k < |s.threads[t].stack|
    requires forall u :: 0 <= u < |s.threads| && u != t ==> s'.threads[u] == s.threads[u]
    requires k <= |s'.threads[t].stack| && s'.threads[t].stack[..k] == s.threads[t].stack[..k]
    requires forall d ::
               k <= d < |s.threads[t].stack| && !s.threads[t].stack[d].Code? && s.threads[t].stack[d].stage == f
               ==> FrameKept(s, s', t, d)
    ensures FramesKept(s, s', t, f)
  {
    var (stack, stack') := (s.threads[t].stack, s'.threads[t].stack);
    forall d | 0 <= d < |stack| && !stack[d].Code? && stack[d].stage == f ensures FrameKept(s, s', t, d) {
      if d < k {
        assert ThreadOk(s, t) && FrameOk(s, t, d);
        assert stack'[d] == stack'[..k][d] == stack[..k][d] == stack[d];
      }
    }
  }

  /** `s` after its thread `t` put `frames` in place of its innermost frame, of some stage `f`, and
      perhaps changed that stage, its query and what is pending. */
  ghost function Replaced(s: State, t: nat, frames: seq<Frame>, stage: Stage, query: Query,
                          pending: seq<Pending>): State
    requires WellFormed(s) && Acts(s, t)
  {
    var stack := s.threads[t].stack;
    var f := Top(stack).stage;
    State(s.threads[t := s.threads[t].(stack := Below(stack) + frames)],
          s.stages[f := stage],
          s.queries[s.stages[f].query := query],
          pending, s.pool)
  }

  /** Thread `t`'s innermost frame is of some stage. */
  predicate Acts(s: State, t: nat) {
    t < |s.threads| && s.threads[t].stack != [] && !Top(s.threads[t].stack).Code?
  }

  function Actor(s: State, t: nat): Place
    requires Acts(s, t)
  {
    Place(t, |s.threads[t].stack| - 1)
  }

  function ActsOn(s: State, t: nat): nat
    requires Acts(s, t)
  {
    Top(s.threads[t].stack).stage
  }

  lemma ActsWithin(s: State, t: nat)
    requires WellFormed(s) && Acts(s, t)
    ensures ActsOn(s, t) < |s.stages| && s.stages[ActsOn(s, t)].query < |s.queries|
  {
  }

  lemma ThreadOf(s: State, t: nat)
    requires Inv(s) && t < |s.threads|
    ensures ThreadOk(s, t)
  {
  }

  lemma FrameOf(s: State, t: nat, d: nat)
    requires Inv(s) && t < |s.threads| && d < |s.threads[t].stack|
    ensures FrameOk(s, t, d)
  {
    ThreadOf(s, t);
  }

  lemma StageOf(s: State, f: nat)
    requires Inv(s) && f < |s.stages|
    ensures StageOk(s, f) && s.stages[f].query < |s.queries|
    ensures QueryOk(s, s.stages[f].query)
  {
  }

  /** The new frames: one of the same kind and stage as the innermost was, and at most one call it makes. */
  ghost predicate FramesFit(s: State, t: nat, frames: seq<Frame>)
    requires Acts(s, t)
  {
    var top := Top(s.threads[t].stack);
    && 0 < |frames| <= 2
    && !frames[0].Code? && frames[0].stage == top.stage
    && frames[0].Run? == top.Run? && frames[0].Help? == top.Help? && frames[0].Job? == top.Job?
    && frames[0].Spread? == top.Spread?
    && (|frames| == 1 ==> !(frames[0].Help? && frames[0].help.Running?))
    && (|frames| == 2 ==> Calling(frames[0]) && CallFits(s, frames[0], frames[1]))
  }

  ghost predicate CallFits(s: State, frame: Frame, call: Frame) {
    match call
    case Code(_) => frame.Help?
    case Help(g, pc) =>
      !pc.Running? && (frame.Run? || frame.Job?)
      && frame.stage < |s.stages| && g < |s.stages| && s.stages[g].query == s.stages[frame.stage].query
    case Spread(g, _, _) => (frame.Run? || frame.Job?) && g == frame.stage
    case _ => false
  }

  lemma ReplacedShapes(s: State, s': State, t: nat, frames: seq<Frame>)
    requires Acts(s, t) && FramesFit(s, t, frames) && ShapeOk(s.threads[t], s.stages, |s.threads[t].stack| - 1)
    requires |s'.threads| == |s.threads| && s'.threads[t].query == s.threads[t].query
    requires s'.threads[t].stack == Below(s.threads[t].stack) + frames
    requires |s'.stages| == |s.stages|
    requires forall f :: 0 <= f < |s.stages| ==> s'.stages[f].query == s.stages[f].query
    ensures forall d :: |s.threads[t].stack| - 1 <= d < |s'.threads[t].stack| ==> ShapeOk(s'.threads[t], s'.stages, d)
  {
    var k := |s.threads[t].stack| - 1;
    assert s'.threads[t].stack[k] == frames[0];
    assert |frames| == 2 ==> s'.threads[t].stack[k + 1] == frames[1];
    assert k > 0 ==> s'.threads[t].stack[k - 1] == s.threads[t].stack[k - 1];
  }

  lemma ReplacedWellFormed(s: State, t: nat, frames: seq<Frame>, stage: Stage, query: Query, pending: seq<Pending>)
    requires WellFormed(s) && Acts(s, t) && FramesFit(s, t, frames)
    requires stage.query == s.stages[ActsOn(s, t)].query
    requires forall k :: 0 <= k < |query.open| ==> query.open[k] < |s.stages|
    requires pending == s.pending || pending == s.pending + [Helper(ActsOn(s, t))]
    ensures WellFormed(Replaced(s, t, frames, stage, query, pending))
  {
    var s' := Replaced(s, t, frames, stage, query, pending);
    var k := |s.threads[t].stack| - 1;
    forall u, d | 0 <= u < |s'.threads| && 0 <= d < |s'.threads[u].stack| && !s'.threads[u].stack[d].Code?
      ensures s'.threads[u].stack[d].stage < |s'.stages|
    {
      if u == t && d >= k {
        assert s'.threads[u].stack[d] == frames[d - k];
      } else {
        assert s'.threads[u].stack[d] == s.threads[u].stack[d];
      }
    }
  }

  lemma ReplacedOrdered(s: State, t: nat, frames: seq<Frame>)
    requires Acts(s, t) && FramesFit(s, t, frames) && Ordered(s.threads[t].stack)
    ensures Ordered(Below(s.threads[t].stack) + frames)
  {
    var stack := s.threads[t].stack;
    var stack' := Below(stack) + frames;
    var k := |stack| - 1;
    forall i, j | 0 <= i < j < |stack'| && stack'[i].Help? && stack'[j].Run?
      ensures stack'[i].stage < stack'[j].stage
    {
      assert j <= k && stack[j].Run? && stack[j].stage == stack'[j].stage;
      assert stack[i] == stack'[i];
    }
  }

  /** What is left to check of a step that replaces thread `t`'s innermost frame. */
  ghost predicate ReplacementOk(s: State, s': State, t: nat, frames: seq<Frame>)
    requires WellFormed(s) && WellFormed(s') && Acts(s, t) && FramesFit(s, t, frames)
    requires |s'.stages| == |s.stages| && |s'.queries| == |s.queries|
  {
    var f := ActsOn(s, t);
    var q := s.stages[f].query;
    && StageRely(s.stages[f], s'.stages[f], s.queries[q], s'.queries[q], Actor(s, t))
    && QueryRely(s.queries[q], s'.queries[q], s.stages, s'.stages, Actor(s, t))
    && StageOk(s', f)
    && QueryOk(s', q)
    && CountsOn(s', Actor(s, t), frames[0])
    && (|frames| == 2 && frames[1].Help? ==> !Holds(frames[1]).Some? && frames[1].help.Claim?)
  }

  lemma Replaces(s: State, t: nat, frames: seq<Frame>, stage: Stage, query: Query, pending: seq<Pending>)
    requires WellFormed(s) && Inv(s) && Acts(s, t) && FramesFit(s, t, frames)
    requires stage.query == s.stages[ActsOn(s, t)].query
    requires WellFormed(Replaced(s, t, frames, stage, query, pending))
    requires ReplacementOk(s, Replaced(s, t, frames, stage, query, pending), t, frames)
    ensures Inv(Replaced(s, t, frames, stage, query, pending))
  {
    hide Inv, StageOk, QueryOk, StageRely, QueryRely, ShapeOk, Ordered, FramesKept, FrameKept, WellFormed,
         RunOk, HelpOk;
    ActsWithin(s, t);
    var s' := Replaced(s, t, frames, stage, query, pending);
    var (stack, stack') := (s.threads[t].stack, s'.threads[t].stack);
    var f := ActsOn(s, t);
    var q := s.stages[f].query;
    var k := |stack| - 1;
    ThreadOf(s, t);
    FrameOf(s, t, k);
    ReplacedOrdered(s, t, frames);
    ReplacedShapes(s, s', t, frames);
    assert stack'[..k] == stack[..k];
    assert stack'[k] == frames[0];
    forall g | 0 <= g < |s.stages| && g != f ensures FramesKept(s, s', t, g) {
      KeptAbove(s, s', t, k, g);
    }
    HoldsOnlyItsOwn(s, t);
    if |frames| == 2 {
      assert stack'[k + 1] == frames[1];
      ClaimsNothing(s', Place(t, k + 1), frames[1]);
    }
    Concludes(s, s', Actor(s, t), k, f, q);
  }

  /** A query the step left alone, and whose lock the acting thread did not hold. */
  lemma QueryStays(s: State, t: nat, frames: seq<Frame>, stage: Stage, pending: seq<Pending>)
    requires WellFormed(s) && Inv(s) && Acts(s, t) && ActsOn(s, t) < |s.stages|
    requires stage.query == s.stages[ActsOn(s, t)].query < |s.queries|
    requires !HoldsLock(s, t, stage.query)
    requires WellFormed(Replaced(s, t, frames, stage, s.queries[stage.query], pending))
    ensures QueryOk(Replaced(s, t, frames, stage, s.queries[stage.query], pending), stage.query)
    ensures QueryRely(s.queries[stage.query], s.queries[stage.query], s.stages, s.stages[ActsOn(s, t) := stage],
                      Actor(s, t))
  {
    hide Inv;
    HoldsOnlyItsOwn(s, t);
    StageOf(s, ActsOn(s, t));
  }

  /** A call that has just started counts on nothing. */
  lemma ClaimsNothing(s: State, place: Place, frame: Frame)
    requires WellFormed(s) && !frame.Run? && (frame.Help? ==> frame.help.Claim?)
    requires !frame.Code? ==> frame.stage < |s.stages|
    ensures CountsOn(s, place, frame)
  {
  }

  /** The innermost frame is kept, so every frame of its stage is, and its history stays in place. */
  lemma SamePlaces(s: State, s': State, t: nat, stage: Stage)
    requires WellFormed(s) && Inv(s) && Acts(s, t) && ActsOn(s, t) < |s.stages|
    requires |s.threads| == |s'.threads|
    requires forall u :: 0 <= u < |s.threads| && u != t ==> s'.threads[u] == s.threads[u]
    requires Below(s.threads[t].stack) <= s'.threads[t].stack
    requires FrameKept(s, s', t, |s.threads[t].stack| - 1)
    requires PlacesOk(s, ActsOn(s, t), stage)
    ensures PlacesOk(s', ActsOn(s, t), stage)
  {
    hide Inv, WellFormed, FrameKept, FramesKept, PlacesOk;
    var k := |s.threads[t].stack| - 1;
    assert s'.threads[t].stack[..k] == Below(s.threads[t].stack);
    KeptAbove(s, s', t, k, ActsOn(s, t));
    PlacesKeep(s, s', t, ActsOn(s, t), stage);
  }

  /** A helper claims an item and starts it. */
  lemma ClaimItemKeeps(s: State, t: nat)
    requires WellFormed(s) && Inv(s) && CanGo(s, t) && Top(s.threads[t].stack).Help?
             && Top(s.threads[t].stack).help.Claim?
    requires Claimable(s.stages[ActsOn(s, t)])
    ensures Inv(Go(s, t))
  {
    hide Inv, WellFormed, StageOk, FrameOk, QueryOk;
    ActsWithin(s, t);
    var f := ActsOn(s, t);
    var k := |s.threads[t].stack| - 1;
    var stage := s.stages[f];
    var frames := [Help(f, Running(stage.next)), Code(stage.items[stage.next])];
    var stage' := ClaimedAt(stage, Actor(s, t));
    var query := s.queries[stage.query];
    OpenWithin(s, stage.query);
    ReplacedWellFormed(s, t, frames, stage', query, s.pending);
    var s' := Replaced(s, t, frames, stage', query, s.pending);
    ClaimItemStage(s, s', t);
    QueryStays(s, t, frames, stage', s.pending);
    Replaces(s, t, frames, stage', query, s.pending);
    assert s' == Go(s, t);
  }

  lemma ClaimItemStage(s: State, s': State, t: nat)
    requires WellFormed(s) && WellFormed(s') && Inv(s)
    requires Acts(s, t) && Top(s.threads[t].stack).Help? && Top(s.threads[t].stack).help.Claim?
    requires ActsOn(s, t) < |s.stages| && s.stages[ActsOn(s, t)].query < |s.queries|
    requires Claimable(s.stages[ActsOn(s, t)])
    requires var stage := s.stages[ActsOn(s, t)];
             s' == Replaced(s, t, [Help(ActsOn(s, t), Running(stage.next)), Code(stage.items[stage.next])],
                            ClaimedAt(stage, Actor(s, t)), s.queries[stage.query], s.pending)
    ensures StageOk(s', ActsOn(s, t))
    ensures s.stages[ActsOn(s, t)].next !in s.stages[ActsOn(s, t)].held
  {
    hide Inv, WellFormed, CountsOk, PlacesOk;
    var f := ActsOn(s, t);
    StageOf(s, f);
    var stage := s.stages[f];
    ClaimCounts(stage, Actor(s, t), s.pool);
    SamePlaces(s, s', t, stage);
    ClaimPlaces(s', f, stage, Actor(s, t), s.pool);
  }

  function ClaimedAt(stage: Stage, place: Place): Stage {
    stage.(next := stage.next + 1, held := stage.held[stage.next := place], begun := stage.begun + [stage.next])
  }

  lemma ClaimCounts(stage: Stage, place: Place, pool: nat)
    requires CountsOk(stage, pool) && Claimable(stage)
    ensures CountsOk(ClaimedAt(stage, place), pool)
    ensures stage.next !in stage.held
  {
    hide IndicesOk;
    assert Claimed(stage) == stage.next && Claimed(ClaimedAt(stage, place)) == stage.next + 1;
    assert UpTo(stage.next) + [stage.next] == UpTo(stage.next + 1);
    ClaimIndices(stage.held, stage.ended, stage.next, place);
  }

  lemma ClaimIndices(held: map<nat, Place>, ended: map<nat, Option<Panic>>, i: nat, place: Place)
    requires IndicesOk(held, ended, i)
    ensures i !in held && IndicesOk(held[i := place], ended, i + 1)
    ensures |held[i := place]| == |held| + 1
  {
  }

  lemma ClaimPlaces(s: State, f: nat, stage: Stage, place: Place, pool: nat)
    requires PlacesOk(s, f, stage) && CountsOk(stage, pool) && HeldOk(s, f, stage.next, place)
    ensures PlacesOk(s, f, ClaimedAt(stage, place))
  {
    var stage' := ClaimedAt(stage, place);
    forall k | 0 <= k < |stage'.kept| ensures KeptOk(s, stage', stage'.kept[k].0, stage'.kept[k].1) {
      assert KeptOk(s, stage, stage.kept[k].0, stage.kept[k].1);
    }
  }

  lemma OpenWithin(s: State, q: nat)
    requires WellFormed(s) && q < |s.queries|
    ensures forall k :: 0 <= k < |s.queries[q].open| ==> s.queries[q].open[k] < |s.stages|
  {
  }

  /** A step that moves on its own frame alone. */
  lemma QuietKeeps(s: State, t: nat, frames: seq<Frame>)
    requires WellFormed(s) && Inv(s) && Acts(s, t) && FramesFit(s, t, frames)
    requires !Top(s.threads[t].stack).Help?
    requires |frames| == 2 ==> frames[1].Spread? || (frames[1].Help? && frames[1].help.Claim?)
    requires ActsOn(s, t) < |s.stages| && CountsOn(s, Actor(s, t), frames[0])
    requires var q := s.stages[ActsOn(s, t)].query;
             HoldsLock(s, t, q) ==> |frames| == 1 && frames[0].Run? && (frames[0].run.WaitCheck? || frames[0].run.Scan?)
    ensures ActsOn(s, t) < |s.stages| && s.stages[ActsOn(s, t)].query < |s.queries|
    ensures var stage := s.stages[ActsOn(s, t)];
            Inv(Replaced(s, t, frames, stage, s.queries[stage.query], s.pending))
  {
    hide Inv, WellFormed, StageOk, FrameOk, PlacesOk, CountsOk;
    ActsWithin(s, t);
    var f := ActsOn(s, t);
    var stage := s.stages[f];
    var query := s.queries[stage.query];
    OpenWithin(s, stage.query);
    ReplacedWellFormed(s, t, frames, stage, query, s.pending);
    var s' := Replaced(s, t, frames, stage, query, s.pending);
    StageOf(s, f);
    assert PlacesOk(s', f, stage) by {
      StagePlaces(s, f);
      SamePlaces(s, s', t, stage);
    }
    assert s'.stages == s.stages && s'.queries == s.queries;
    StagePlaces(s, f);
    StageFrom(s', f);
    Replaces(s, t, frames, stage, query, s.pending);
  }

  lemma StagePlaces(s: State, f: nat)
    requires f < |s.stages| && StageOk(s, f)
    ensures PlacesOk(s, f, s.stages[f]) && CountsOk(s.stages[f], s.pool)
  {
  }

  lemma StageFrom(s: State, f: nat)
    requires f < |s.stages| && PlacesOk(s, f, s.stages[f]) && CountsOk(s.stages[f], s.pool)
    ensures StageOk(s, f)
  {
  }

  /** The steps of a fork that change its own frame alone: calls, a check that finds items unfinished,
      a stage passed over, a wakeup. */
  lemma RunQuietKeeps(s: State, t: nat)
    requires WellFormed(s) && Inv(s) && CanGo(s, t) && Top(s.threads[t].stack).Run?
    requires match Top(s.threads[t].stack).run
             case ToSpread => true
             case ToHelp => true
             case ToFinish => true
             case WaitCheck => s.stages[ActsOn(s, t)].unfinished > 0
             case Scan(k) =>
               var open := QueryOf(s, ActsOn(s, t)).open;
               k < |open| && !Claimable(s.stages[open[k]])
             case Sleep(_) => true
             case _ => false
    ensures Inv(Go(s, t))
  {
    hide Inv, WellFormed, PlacesOk, StageOk, QueryOk, ShapeOk;
    ActsWithin(s, t);
    var k := |s.threads[t].stack| - 1;
    FrameOf(s, t, k);
    NoticeOf(s, ActsOn(s, t));
    OpenWithin(s, s.stages[ActsOn(s, t)].query);
    var Run(f, entered, pc) := Top(s.threads[t].stack);
    var frames :=
      match pc
      case ToSpread => [Run(f, entered, ToHelp), Spread(f, 2, false)]
      case ToHelp => [Run(f, entered, ToFinish), Help(f, Claim)]
      case ToFinish => [Run(f, entered, WaitLock), Help(f, Claim)]
      case WaitCheck => [Run(f, entered, Scan(0))]
      case Scan(k) => [Run(f, entered, Scan(k + 1))]
      case _ => [Run(f, entered, WaitLock)];
    QuietKeeps(s, t, frames);
    RunQuietIs(s, t, frames);
  }

  lemma NoticeOf(s: State, f: nat)
    requires Inv(s) && f < |s.stages|
    ensures s.stages[f].notice.NotYet? <==> s.stages[f].unfinished > 0
  {
    StageOf(s, f);
  }

  lemma RunQuietIs(s: State, t: nat, frames: seq<Frame>)
    requires WellFormed(s) && CanGo(s, t) && Acts(s, t) && ActsOn(s, t) < |s.stages|
             && s.stages[ActsOn(s, t)].query < |s.queries|
    requires Go(s, t) == WithStack(s, t, Below(s.threads[t].stack) + frames)
    ensures var stage := s.stages[ActsOn(s, t)];
            Go(s, t) == Replaced(s, t, frames, stage, s.queries[stage.query], s.pending)
  {
  }

  lemma WakeKeeps(s: State, t: nat)
    requires WellFormed(s) && Inv(s) && CanWakeUnasked(s, t)
    ensures Inv(WakeUnasked(s, t))
  {
    hide Inv, WellFormed, PlacesOk, StageOk, QueryOk, ShapeOk;
    ActsWithin(s, t);
    FrameOf(s, t, |s.threads[t].stack| - 1);
    var Run(f, entered, pc) := Top(s.threads[t].stack);
    QuietKeeps(s, t, [Run(f, entered, WaitLock)]);
    var stage := s.stages[f];
    assert WakeUnasked(s, t) == Replaced(s, t, [Run(f, entered, WaitLock)], stage, s.queries[stage.query], s.pending);
  }

  /** A pool thread's job moves on to its calls; a spreading call finds an item left. */
  lemma JobQuietKeeps(s: State, t: nat)
    requires WellFormed(s) && Inv(s) && CanGo(s, t)
    requires (Top(s.threads[t].stack).Job? && !Top(s.threads[t].stack).job.JobEnd?)
             || (Top(s.threads[t].stack).Spread? && Top(s.threads[t].stack).left > 0
                 && !Top(s.threads[t].stack).checked && Claimable(s.stages[ActsOn(s, t)]))
    ensures Inv(Go(s, t))
  {
    hide Inv, WellFormed, PlacesOk, StageOk, QueryOk, ShapeOk;
    ActsWithin(s, t);
    FrameOf(s, t, |s.threads[t].stack| - 1);
    var top := Top(s.threads[t].stack);
    var frames :=
      if top.Spread? then [Spread(top.stage, top.left, true)]
      else if top.job.JobSpread? then [Job(top.stage, JobHelp), Spread(top.stage, 2, false)]
      else [Job(top.stage, JobEnd), Help(top.stage, Claim)];
    QuietKeeps(s, t, frames);
    RunQuietIs(s, t, frames);
  }

  /** A step of a fork that changes its own frame and its query: the list of open stages, or the lock. */
  lemma QueryStepKeeps(s: State, t: nat, frames: seq<Frame>, query: Query)
    requires WellFormed(s) && Inv(s) && Acts(s, t) && FramesFit(s, t, frames)
    requires Top(s.threads[t].stack).Run?
    requires |frames| == 2 ==> frames[1].Help? && frames[1].help.Claim?
    requires ActsOn(s, t) < |s.stages| && s.stages[ActsOn(s, t)].query < |s.queries|
    requires RunOk(s.stages, query, Actor(s, t), frames[0])
    requires var q := s.stages[ActsOn(s, t)].query;
             QueryRely(s.queries[q], query, s.stages, s.stages, Actor(s, t))
    requires forall k :: 0 <= k < |query.open| ==>
               query.open[k] < |s.stages| && s.stages[query.open[k]].query == s.stages[ActsOn(s, t)].query
    requires query.holder == Some(t) ==> |frames| == 1 && (frames[0].run.WaitCheck? || frames[0].run.Scan?)
    requires query.holder.Some? && query.holder != Some(t) ==>
               s.queries[s.stages[ActsOn(s, t)].query].holder == query.holder
    ensures var stage := s.stages[ActsOn(s, t)];
            Inv(Replaced(s, t, frames, stage, query, s.pending))
  {
    hide Inv, WellFormed, StageOk, FrameOk, PlacesOk, CountsOk, RunOk, QueryRely;
    ActsWithin(s, t);
    var f := ActsOn(s, t);
    var stage := s.stages[f];
    ReplacedWellFormed(s, t, frames, stage, query, s.pending);
    var s' := Replaced(s, t, frames, stage, query, s.pending);
    StageOf(s, f);
    StagePlaces(s, f);
    SamePlaces(s, s', t, stage);
    assert s'.stages == s.stages;
    StageFrom(s', f);
    QueryFrom(s, s', t, frames, query);
    assert QueryRely(s.queries[stage.query], s'.queries[stage.query], s.stages, s'.stages, Actor(s, t));
    StageSame(stage, s.queries[stage.query], query, Actor(s, t));
    Replaces(s, t, frames, stage, query, s.pending);
  }

  lemma StageSame(stage: Stage, was: Query, now: Query, actor: Place)
    ensures StageRely(stage, stage, was, now, actor)
  {
  }

  lemma QueryFrom(s: State, s': State, t: nat, frames: seq<Frame>, query: Query)
    requires WellFormed(s) && WellFormed(s') && Acts(s, t)
    requires ActsOn(s, t) < |s.stages| && FramesFit(s, t, frames) && frames[0].Run?
    requires s.stages[ActsOn(s, t)].query < |s.queries|
    requires QueryOk(s, s.stages[ActsOn(s, t)].query)
    requires s' == Replaced(s, t, frames, s.stages[ActsOn(s, t)], query, s.pending)
    requires s'.stages == s.stages
    requires forall k :: 0 <= k < |query.open| ==>
               query.open[k] < |s.stages| && s.stages[query.open[k]].query == s.stages[ActsOn(s, t)].query
    requires query.holder == Some(t) ==> |frames| == 1 && (frames[0].run.WaitCheck? || frames[0].run.Scan?)
    requires query.holder.Some? && query.holder != Some(t) ==>
               s.queries[s.stages[ActsOn(s, t)].query].holder == query.holder
    ensures QueryOk(s', s.stages[ActsOn(s, t)].query)
  {
    hide WellFormed;
    var q := s.stages[ActsOn(s, t)].query;
    if query.holder.Some? {
      var u := query.holder.value;
      if u != t {
        assert HoldsLock(s, u, q);
        assert HoldsLock(s', u, q);
      } else {
        assert Top(s'.threads[t].stack) == frames[0];
      }
    }
  }

  lemma OpenOf(s: State, f: nat)
    requires Inv(s) && f < |s.stages|
    ensures s.stages[f].query < |s.queries|
    ensures forall k :: 0 <= k < |s.queries[s.stages[f].query].open| ==>
              s.queries[s.stages[f].query].open[k] < |s.stages|
              && s.stages[s.queries[s.stages[f].query].open[k]].query == s.stages[f].query
  {
    StageOf(s, f);
  }

  lemma RemoveKeeps(open: seq<nat>, stage: nat)
    ensures forall f :: f in Remove(open, stage) <==> f in open && f != stage
  {
    if open != [] {
      RemoveKeeps(open[1..], stage);
      assert open == [open[0]] + open[1..];
    }
  }

  lemma StackedIs(s: State, t: nat, frames: seq<Frame>, query: Query)
    requires WellFormed(s) && CanGo(s, t) && Acts(s, t) && ActsOn(s, t) < |s.stages|
             && s.stages[ActsOn(s, t)].query < |s.queries|
    requires Go(s, t)
             == WithQuery(WithStack(s, t, Below(s.threads[t].stack) + frames), s.stages[ActsOn(s, t)].query, query)
    ensures Go(s, t) == Replaced(s, t, frames, s.stages[ActsOn(s, t)], query, s.pending)
  {
  }

  /** A fork joins its query's open list, or leaves it. */
  lemma RunOpenKeeps(s: State, t: nat)
    requires WellFormed(s) && Inv(s) && CanGo(s, t) && Top(s.threads[t].stack).Run?
    requires Top(s.threads[t].stack).run.Opening? || Top(s.threads[t].stack).run.Closing?
    ensures Inv(Go(s, t))
  {
    hide Inv, WellFormed, PlacesOk, StageOk, QueryOk, ShapeOk;
    ActsWithin(s, t);
    FrameOf(s, t, |s.threads[t].stack| - 1);
    OpenOf(s, ActsOn(s, t));
    var Run(f, entered, pc) := Top(s.threads[t].stack);
    var query := s.queries[s.stages[f].query];
    var frames := [Run(f, entered, if pc.Opening? then Announcing else Returning)];
    var query' := query.(open := if pc.Opening? then query.open + [f] else Remove(query.open, f));
    RemoveKeeps(query.open, f);
    forall k | 0 <= k < |query'.open|
      ensures query'.open[k] < |s.stages| && s.stages[query'.open[k]].query == s.stages[f].query
    {
      assert query'.open[k] in query'.open;
      assert query'.open[k] in query.open || query'.open[k] == f;
    }
    QueryStepKeeps(s, t, frames, query');
    StackedIs(s, t, frames, query');
  }

  /** A waiter takes the lock, or lets it go: to leave, to help, or to sleep. */
  lemma RunLockKeeps(s: State, t: nat)
    requires WellFormed(s) && Inv(s) && CanGo(s, t) && Top(s.threads[t].stack).Run?
    requires match Top(s.threads[t].stack).run
             case WaitLock => true
             case WaitCheck => s.stages[ActsOn(s, t)].unfinished == 0
             case Scan(k) =>
               var open := QueryOf(s, ActsOn(s, t)).open;
               k < |open| ==> Claimable(s.stages[open[k]])
             case _ => false
    ensures Inv(Go(s, t))
  {
    hide Inv, WellFormed, PlacesOk, StageOk, QueryOk, ShapeOk;
    ActsWithin(s, t);
    FrameOf(s, t, |s.threads[t].stack| - 1);
    OpenOf(s, ActsOn(s, t));
    var Run(f, entered, pc) := Top(s.threads[t].stack);
    var query := s.queries[s.stages[f].query];
    var frames :=
      match pc
      case WaitLock => [Run(f, entered, WaitCheck)]
      case WaitCheck => [Run(f, entered, Closing)]
      case Scan(k) =>
        if k < |query.open| then [Run(f, entered, WaitLock), Help(query.open[k], Claim)]
        else [Run(f, entered, Sleep(query.epoch))]
      case _ => [];
    var query' := query.(holder := if pc.WaitLock? then Some(t) else None);
    QueryStepKeeps(s, t, frames, query');
    StackedIs(s, t, frames, query');
  }

  /** A step that changes its own frame and its stage, and perhaps notifies. */
  lemma StageStepKeeps(s: State, t: nat, frames: seq<Frame>, stage: Stage, query: Query, pending: seq<Pending>)
    requires WellFormed(s) && Inv(s) && Acts(s, t) && FramesFit(s, t, frames) && |frames| == 1
    requires ActsOn(s, t) < |s.stages| && s.stages[ActsOn(s, t)].query < |s.queries|
    requires !HoldsLock(s, t, stage.query)
    requires pending == s.pending || pending == s.pending + [Helper(ActsOn(s, t))]
    requires var was := s.stages[ActsOn(s, t)];
             && StageRely(was, stage, s.queries[was.query], query, Actor(s, t))
             && query.open == s.queries[was.query].open && query.holder == s.queries[was.query].holder
             && query.epoch >= s.queries[was.query].epoch
    requires frames[0].Help? ==> HelpOk(stage, Actor(s, t), frames[0])
    requires frames[0].Run? ==> RunOk(s.stages[ActsOn(s, t) := stage], query, Actor(s, t), frames[0])
    requires CountsOk(stage, s.pool)
    requires PlacesOk(Replaced(s, t, frames, stage, query, pending), ActsOn(s, t), stage)
    ensures Inv(Replaced(s, t, frames, stage, query, pending))
  {
    hide Inv, WellFormed, FrameOk, StageOk, PlacesOk, CountsOk, RunOk, HelpOk;
    ActsWithin(s, t);
    var f := ActsOn(s, t);
    OpenWithin(s, stage.query);
    ReplacedWellFormed(s, t, frames, stage, query, pending);
    var s' := Replaced(s, t, frames, stage, query, pending);
    StageFrom(s', f);
    NotifiedQuery(s, s', t, frames, stage, query, pending);
    Replaces(s, t, frames, stage, query, pending);
  }

  lemma NotifiedQuery(s: State, s': State, t: nat, frames: seq<Frame>, stage: Stage, query: Query,
                      pending: seq<Pending>)
    requires WellFormed(s) && WellFormed(s') && Inv(s) && Acts(s, t) && ActsOn(s, t) < |s.stages|
    requires stage.query == s.stages[ActsOn(s, t)].query < |s.queries|
    requires !HoldsLock(s, t, stage.query)
    requires query.open == s.queries[stage.query].open && query.holder == s.queries[stage.query].holder
    requires s' == Replaced(s, t, frames, stage, query, pending)
    ensures QueryOk(s', stage.query)
  {
    hide Inv;
    HoldsOnlyItsOwn(s, t);
    StageOf(s, ActsOn(s, t));
    var q := stage.query;
    if query.holder.Some? {
      var u := query.holder.value;
      assert HoldsLock(s, u, q);
      assert HoldsLock(s', u, q);
    }
  }

  lemma StageStepIs(s: State, t: nat, frames: seq<Frame>, stage: Stage)
    requires WellFormed(s) && CanGo(s, t) && Acts(s, t) && ActsOn(s, t) < |s.stages|
             && s.stages[ActsOn(s, t)].query < |s.queries|
    requires Go(s, t) == WithStage(WithStack(s, t, Below(s.threads[t].stack) + frames), ActsOn(s, t), stage)
    ensures Go(s, t) == Replaced(s, t, frames, stage, s.queries[s.stages[ActsOn(s, t)].query], s.pending)
  {
  }

  // The stages after each of those steps.

  function KeptAt(stage: Stage, i: nat, panic: Panic): Stage {
    stage.(panic := if stage.panic.None? then Some(panic) else stage.panic, kept := stage.kept + [(i, panic)])
  }

  function CountedAt(stage: Stage, i: nat, outcome: Option<Panic>, t: nat): Stage
    requires stage.unfinished > 0
  {
    stage.(unfinished := stage.unfinished - 1, held := stage.held - {i}, ended := stage.ended[i := outcome],
           notice := if stage.unfinished == 1 then Locking(t) else stage.notice)
  }

  lemma KeepCounts(stage: Stage, i: nat, panic: Panic, pool: nat)
    requires CountsOk(stage, pool) && i in stage.held
    ensures CountsOk(KeptAt(stage, i, panic), pool)
  {
    var stage' := KeptAt(stage, i, panic);
    assert i < Claimed(stage) && i !in stage.ended;
    HeldMeansUnfinished(stage, i, pool);
    assert stage.kept != [] ==> stage'.kept[0] == stage.kept[0];
  }

  lemma HeldMeansUnfinished(stage: Stage, i: nat, pool: nat)
    requires CountsOk(stage, pool) && i in stage.held
    ensures stage.unfinished > 0 && stage.notice.NotYet? && !stage.returned
  {
    assert i in stage.held.Keys;
  }

  lemma CountCounts(stage: Stage, i: nat, outcome: Option<Panic>, t: nat, pool: nat)
    requires CountsOk(stage, pool) && i in stage.held
    requires outcome.Some? ==> (i, outcome.value) in stage.kept
    ensures stage.unfinished > 0
    ensures CountsOk(CountedAt(stage, i, outcome, t), pool)
  {
    HeldMeansUnfinished(stage, i, pool);
    var stage' := CountedAt(stage, i, outcome, t);
    assert stage'.held.Keys == stage.held.Keys - {i};
    assert |stage'.held| == |stage'.held.Keys| == |stage.held.Keys| - 1;
  }

  /** The acting helper kept a panic: its frame now says so. */
  lemma KeepPlaces(s: State, s': State, t: nat, i: nat, panic: Panic)
    requires WellFormed(s) && Inv(s) && Acts(s, t) && ActsOn(s, t) < |s.stages|
    requires Top(s.threads[t].stack) == Help(ActsOn(s, t), Keep(i, panic))
    requires s'.threads == s.threads[t := s.threads[t].(stack :=
               Below(s.threads[t].stack) + [Help(ActsOn(s, t), Count(i, Some(panic)))])]
    requires PlacesOk(s, ActsOn(s, t), s.stages[ActsOn(s, t)])
    requires i in s.stages[ActsOn(s, t)].held && s.stages[ActsOn(s, t)].held[i] == Actor(s, t)
    ensures PlacesOk(s', ActsOn(s, t), KeptAt(s.stages[ActsOn(s, t)], i, panic))
  {
    hide Inv, WellFormed;
    var f := ActsOn(s, t);
    var stage := s.stages[f];
    var stage' := KeptAt(stage, i, panic);
    SamePlaces(s, s', t, stage);
    forall k | 0 <= k < |stage'.kept| ensures KeptOk(s', stage', stage'.kept[k].0, stage'.kept[k].1) {
      if k < |stage.kept| {
        assert KeptOk(s', stage, stage.kept[k].0, stage.kept[k].1);
      }
    }
  }

  lemma KeepKeeps(s: State, t: nat)
    requires WellFormed(s) && Inv(s) && CanGo(s, t) && Top(s.threads[t].stack).Help?
             && Top(s.threads[t].stack).help.Keep?
    ensures Inv(Go(s, t))
  {
    hide Inv, WellFormed, PlacesOk, CountsOk, ShapeOk, QueryOk;
    ActsWithin(s, t);
    var f := ActsOn(s, t);
    var stage := s.stages[f];
    var query := s.queries[stage.query];
    FrameOf(s, t, |s.threads[t].stack| - 1);
    StageOf(s, f);
    var Keep(i, panic) := Top(s.threads[t].stack).help;
    var frames := [Help(f, Count(i, Some(panic)))];
    var stage' := KeptAt(stage, i, panic);
    KeepCounts(stage, i, panic, s.pool);
    KeepPlaces(s, Replaced(s, t, frames, stage', query, s.pending), t, i, panic);
    StageStepKeeps(s, t, frames, stage', query, s.pending);
    StageStepIs(s, t, frames, stage');
  }

  /** The acting helper counted its item finished, and now either claims again or notifies. */
  lemma CountPlaces(s: State, s': State, t: nat, i: nat, outcome: Option<Panic>, pc: HelpPc)
    requires WellFormed(s) && Inv(s) && Acts(s, t) && ActsOn(s, t) < |s.stages|
    requires Top(s.threads[t].stack) == Help(ActsOn(s, t), Count(i, outcome))
    requires s'.threads == s.threads[t := s.threads[t].(stack := Below(s.threads[t].stack) + [Help(ActsOn(s, t), pc)])]
    requires PlacesOk(s, ActsOn(s, t), s.stages[ActsOn(s, t)]) && CountsOk(s.stages[ActsOn(s, t)], s.pool)
    requires i in s.stages[ActsOn(s, t)].held && s.stages[ActsOn(s, t)].held[i] == Actor(s, t)
    requires s.stages[ActsOn(s, t)].unfinished > 0
    requires pc == if s.stages[ActsOn(s, t)].unfinished == 1 then NotifyLock else Claim
    ensures PlacesOk(s', ActsOn(s, t), CountedAt(s.stages[ActsOn(s, t)], i, outcome, t))
  {
    hide Inv, WellFormed;
    var f := ActsOn(s, t);
    var stage := s.stages[f];
    var stage' := CountedAt(stage, i, outcome, t);
    forall j | j in stage'.held ensures HeldOk(s', f, j, stage'.held[j]) {
      assert HeldOk(s, f, j, stage.held[j]);
      CountHeld(s, s', t, i, outcome, pc, j);
    }
    forall k | 0 <= k < |stage'.kept| ensures KeptOk(s', stage', stage'.kept[k].0, stage'.kept[k].1) {
      var (j, panic) := stage.kept[k];
      assert KeptOk(s, stage, j, panic);
      if j in stage.held {
        assert HeldOk(s, f, j, stage.held[j]);
        if j != i {
          CountHeld(s, s', t, i, outcome, pc, j);
        }
      }
    }
    HeldMeansUnfinished(stage, i, s.pool);
    assert Top(s'.threads[t].stack) == Help(f, pc);
    CountOwner(s, s', t, f, stage, pc);
  }

  lemma CountOwner(s: State, s': State, t: nat, f: nat, stage: Stage, pc: HelpPc)
    requires Acts(s, t) && Top(s.threads[t].stack).Help?
    requires s'.threads == s.threads[t := s.threads[t].(stack := Below(s.threads[t].stack) + [Help(f, pc)])]
    requires OwnerOk(s, f, stage)
    ensures OwnerOk(s', f, stage)
  {
  }

  /** Another item's frame stays where it was. */
  lemma CountHeld(s: State, s': State, t: nat, i: nat, outcome: Option<Panic>, pc: HelpPc, j: nat)
    requires Acts(s, t) && ActsOn(s, t) < |s.stages|
    requires Top(s.threads[t].stack) == Help(ActsOn(s, t), Count(i, outcome))
    requires s'.threads == s.threads[t := s.threads[t].(stack := Below(s.threads[t].stack) + [Help(ActsOn(s, t), pc)])]
    requires j in s.stages[ActsOn(s, t)].held && j != i
    requires HeldOk(s, ActsOn(s, t), j, s.stages[ActsOn(s, t)].held[j])
    ensures HeldOk(s', ActsOn(s, t), j, s.stages[ActsOn(s, t)].held[j])
    ensures At(s', s.stages[ActsOn(s, t)].held[j]) == At(s, s.stages[ActsOn(s, t)].held[j])
  {
  }

  lemma CountKeeps(s: State, t: nat)
    requires WellFormed(s) && Inv(s) && CanGo(s, t) && Top(s.threads[t].stack).Help?
             && Top(s.threads[t].stack).help.Count?
    ensures Inv(Go(s, t))
  {
    hide Inv, WellFormed, PlacesOk, CountsOk, ShapeOk, QueryOk;
    ActsWithin(s, t);
    var f := ActsOn(s, t);
    var stage := s.stages[f];
    var query := s.queries[stage.query];
    FrameOf(s, t, |s.threads[t].stack| - 1);
    StageOf(s, f);
    var Count(i, outcome) := Top(s.threads[t].stack).help;
    HeldMeansUnfinished(stage, i, s.pool);
    var pc := if stage.unfinished == 1 then NotifyLock else Claim;
    var stage' := CountedAt(stage, i, outcome, t);
    CountCounts(stage, i, outcome, t, s.pool);
    CountPlaces(s, Replaced(s, t, [Help(f, pc)], stage', query, s.pending), t, i, outcome, pc);
    StageStepKeeps(s, t, [Help(f, pc)], stage', query, s.pending);
    StageStepIs(s, t, [Help(f, pc)], stage');
  }

  /** The last helper notifies: it passes the lock, then wakes every sleeper. */
  lemma NotifyKeeps(s: State, t: nat)
    requires WellFormed(s) && Inv(s) && CanGo(s, t) && Top(s.threads[t].stack).Help?
    requires Top(s.threads[t].stack).help.NotifyLock? || Top(s.threads[t].stack).help.NotifyAll?
    ensures Inv(Go(s, t))
  {
    hide Inv, WellFormed, PlacesOk, ShapeOk, QueryOk;
    ActsWithin(s, t);
    var f := ActsOn(s, t);
    var stage := s.stages[f];
    FrameOf(s, t, |s.threads[t].stack| - 1);
    StageOf(s, f);
    var locking := Top(s.threads[t].stack).help.NotifyLock?;
    var frames := [Help(f, if locking then NotifyAll else Claim)];
    var stage' := stage.(notice := if locking then Sending(t) else Sent);
    var query := s.queries[stage.query];
    var query' := if locking then query else query.(epoch := query.epoch + 1);
    NotifyPlaces(s, Replaced(s, t, frames, stage', query', s.pending), t, frames[0].help);
    StageStepKeeps(s, t, frames, stage', query', s.pending);
    NotifyIs(s, t, frames, stage', query');
  }

  lemma NotifyIs(s: State, t: nat, frames: seq<Frame>, stage: Stage, query: Query)
    requires WellFormed(s) && CanGo(s, t) && Acts(s, t) && ActsOn(s, t) < |s.stages|
             && s.stages[ActsOn(s, t)].query < |s.queries|
    requires Go(s, t).threads == WithStack(s, t, Below(s.threads[t].stack) + frames).threads
    requires Go(s, t).stages == s.stages[ActsOn(s, t) := stage]
    requires Go(s, t).queries == s.queries[s.stages[ActsOn(s, t)].query := query]
                || (Go(s, t).queries == s.queries && query == s.queries[s.stages[ActsOn(s, t)].query])
    requires Go(s, t).pool == s.pool
    ensures Go(s, t) == Replaced(s, t, frames, stage, query, Go(s, t).pending)
  {
  }

  lemma NotifyPlaces(s: State, s': State, t: nat, pc: HelpPc)
    requires WellFormed(s) && Inv(s) && Acts(s, t) && ActsOn(s, t) < |s.stages|
    requires Top(s.threads[t].stack).Help?
    requires (Top(s.threads[t].stack).help.NotifyLock? && pc.NotifyAll?)
             || (Top(s.threads[t].stack).help.NotifyAll? && pc.Claim?)
    requires s'.threads == s.threads[t := s.threads[t].(stack := Below(s.threads[t].stack) + [Help(ActsOn(s, t), pc)])]
    requires PlacesOk(s, ActsOn(s, t), s.stages[ActsOn(s, t)])
    ensures PlacesOk(s', ActsOn(s, t), s.stages[ActsOn(s, t)].(notice := if pc.NotifyAll? then Sending(t) else Sent))
  {
    hide Inv, WellFormed;
    var f := ActsOn(s, t);
    var stage := s.stages[f];
    var stage' := stage.(notice := if pc.NotifyAll? then Sending(t) else Sent);
    CountOwner(s, s', t, f, stage, pc);
    forall j | j in stage'.held ensures HeldOk(s', f, j, stage'.held[j]) {
      assert HeldOk(s, f, j, stage.held[j]);
    }
    forall k | 0 <= k < |stage'.kept| ensures KeptOk(s', stage', stage'.kept[k].0, stage'.kept[k].1) {
      assert KeptOk(s, stage, stage.kept[k].0, stage.kept[k].1);
    }
    assert Top(s'.threads[t].stack) == Help(f, pc);
  }

  /** A fork tells its query's sleepers that it opened. */
  lemma AnnounceKeeps(s: State, t: nat)
    requires WellFormed(s) && Inv(s) && CanGo(s, t) && Top(s.threads[t].stack).Run?
    requires Top(s.threads[t].stack).run.Announcing?
    ensures Inv(Go(s, t))
  {
    hide Inv, WellFormed, PlacesOk, ShapeOk, QueryOk;
    ActsWithin(s, t);
    FrameOf(s, t, |s.threads[t].stack| - 1);
    var Run(f, entered, pc) := Top(s.threads[t].stack);
    var stage := s.stages[f];
    StageOf(s, f);
    var frames := [Run(f, entered, ToSpread)];
    var stage' := stage.(announced := true);
    var query := s.queries[stage.query];
    var query' := query.(epoch := query.epoch + 1);
    var s' := Replaced(s, t, frames, stage', query', s.pending);
    SamePlaces(s, s', t, stage);
    SpareField(s', f, stage, stage');
    StageStepKeeps(s, t, frames, stage', query', s.pending);
    NotifyIs(s, t, frames, stage', query');
  }

  /** The places a stage's history points at do not depend on its other fields. */
  lemma SpareField(s: State, f: nat, stage: Stage, stage': Stage)
    requires PlacesOk(s, f, stage)
    requires stage'.owner == stage.owner && stage'.returned == stage.returned && stage'.held == stage.held
    requires stage'.kept == stage.kept && stage'.ended == stage.ended && stage'.notice == stage.notice
    ensures PlacesOk(s, f, stage')
  {
    forall k | 0 <= k < |stage'.kept| ensures KeptOk(s, stage', stage'.kept[k].0, stage'.kept[k].1) {
      assert KeptOk(s, stage, stage.kept[k].0, stage.kept[k].1);
    }
  }

  /** A fork or a helper spawns a helper. */
  lemma SpawnKeeps(s: State, t: nat)
    requires WellFormed(s) && Inv(s) && CanGo(s, t) && Top(s.threads[t].stack).Spread?
    requires Top(s.threads[t].stack).left > 0 && Top(s.threads[t].stack).checked
    requires ActsOn(s, t) < |s.stages| && s.stages[ActsOn(s, t)].unspawned > 0
    ensures Inv(Go(s, t))
  {
    hide Inv, WellFormed, PlacesOk, ShapeOk, QueryOk, CountsOk, StageRely, RunOk, HelpOk;
    ActsWithin(s, t);
    FrameOf(s, t, |s.threads[t].stack| - 1);
    var Spread(f, left, checked) := Top(s.threads[t].stack);
    var stage := s.stages[f];
    StageOf(s, f);
    var frames := [Spread(f, left - 1, false)];
    var stage' := stage.(unspawned := stage.unspawned - 1, spawned := stage.spawned + 1);
    var query := s.queries[stage.query];
    var pending := s.pending + [Helper(f)];
    var s' := Replaced(s, t, frames, stage', query, pending);
    SamePlaces(s, s', t, stage);
    SpareField(s', f, stage, stage');
    SpawnCounts(stage, query, Actor(s, t), s.pool);
    StageStepKeeps(s, t, frames, stage', query, pending);
    NotifyIs(s, t, frames, stage', query);
  }

  lemma SpawnCounts(stage: Stage, query: Query, actor: Place, pool: nat)
    requires CountsOk(stage, pool) && stage.unspawned > 0
    ensures CountsOk(stage.(unspawned := stage.unspawned - 1, spawned := stage.spawned + 1), pool)
    ensures StageRely(stage, stage.(unspawned := stage.unspawned - 1, spawned := stage.spawned + 1), query,
                      query, actor)
  {
  }

  /** `s` after thread `t`'s innermost call returned, and perhaps changed its stage. */
  ghost function Popped(s: State, t: nat, query: Option<nat>, stage: Stage): State
    requires Acts(s, t) && ActsOn(s, t) < |s.stages|
  {
    s.(threads := s.threads[t := Thread(query, Below(s.threads[t].stack))], stages := s.stages[ActsOn(s, t) := stage])
  }

  lemma PoppedWellFormed(s: State, t: nat, query: Option<nat>, stage: Stage)
    requires WellFormed(s) && Acts(s, t) && ActsOn(s, t) < |s.stages|
    requires stage.query == s.stages[ActsOn(s, t)].query
    requires query.None? || query == s.threads[t].query
    ensures WellFormed(Popped(s, t, query, stage))
  {
  }

  /** A call that returns: a spreading call, a helper that found no item left, or a pool thread's job. */
  lemma PopKeeps(s: State, t: nat, query: Option<nat>, stage: Stage)
    requires WellFormed(s) && Inv(s) && Acts(s, t) && !Top(s.threads[t].stack).Run?
    requires Top(s.threads[t].stack).Help? ==> Top(s.threads[t].stack).help.Claim?
    requires ActsOn(s, t) < |s.stages| && s.stages[ActsOn(s, t)].query < |s.queries|
    requires query == if Top(s.threads[t].stack).Job? then None else s.threads[t].query
    requires CountsOk(stage, s.pool)
    requires var was := s.stages[ActsOn(s, t)];
             && stage.owner == was.owner && stage.returned == was.returned && stage.held == was.held
             && stage.kept == was.kept && stage.ended == was.ended && stage.notice == was.notice
             && StageRely(was, stage, s.queries[was.query], s.queries[was.query], Actor(s, t))
    ensures Inv(Popped(s, t, query, stage))
  {
    hide Inv, WellFormed, FrameOk, StageOk, QueryOk, PlacesOk, CountsOk, StageRely, Ordered, FramesKept, FrameKept;
    ActsWithin(s, t);
    var f := ActsOn(s, t);
    var k := |s.threads[t].stack| - 1;
    var was := s.stages[f];
    assert stage.query == was.query by { StageQuery(was, stage, s.queries[was.query], Actor(s, t)); }
    PoppedWellFormed(s, t, query, stage);
    var s' := Popped(s, t, query, stage);
    StageOf(s, f);
    StagePlaces(s, f);
    PopKept(s, s', t);
    forall g | 0 <= g < |s.stages| ensures FramesKept(s, s', t, g) {
      KeptAbove(s, s', t, k, g);
    }
    PlacesKeep(s, s', t, f, was);
    SpareField(s', f, was, stage);
    StageFrom(s', f);
    PopShape(s, t);
    PopQuery(s, s', t);
    HoldsOnlyItsOwn(s, t);
    Concludes(s, s', Actor(s, t), k, f, was.query);
  }

  lemma StageQuery(was: Stage, now: Stage, query: Query, actor: Place)
    requires StageRely(was, now, query, query, actor)
    ensures now.query == was.query
  {
  }

  lemma PopKept(s: State, s': State, t: nat)
    requires Acts(s, t) && !Top(s.threads[t].stack).Run? && |s.threads| == |s'.threads|
    requires Top(s.threads[t].stack).Help? ==> Top(s.threads[t].stack).help.Claim?
    ensures FrameKept(s, s', t, |s.threads[t].stack| - 1)
  {
  }

  /** What a returning call's thread looks like. */
  lemma PopShape(s: State, t: nat)
    requires WellFormed(s) && Inv(s) && Acts(s, t) && !Top(s.threads[t].stack).Run?
    ensures var stack := s.threads[t].stack;
            && Ordered(Below(stack))
            && s.threads[t].query.Some?
            && (Top(stack).Job? <==> |stack| == 1)
            && (|stack| > 1 ==> !stack[|stack| - 2].Help? && !stack[|stack| - 2].Code?)
  {
    hide Inv, WellFormed, CountsOn;
    var k := |s.threads[t].stack| - 1;
    ThreadOf(s, t);
    FrameOf(s, t, k);
  }

  lemma PopQuery(s: State, s': State, t: nat)
    requires WellFormed(s) && WellFormed(s') && Inv(s) && Acts(s, t)
    requires ActsOn(s, t) < |s.stages| == |s'.stages| && s.stages[ActsOn(s, t)].query < |s.queries|
             && s'.queries == s.queries
    requires !HoldsLock(s, t, s.stages[ActsOn(s, t)].query)
    requires |s'.threads| == |s.threads|
    requires forall u :: 0 <= u < |s.threads| && u != t ==> s'.threads[u] == s.threads[u]
    requires forall f :: 0 <= f < |s.stages| ==> s'.stages[f].query == s.stages[f].query
    ensures QueryOk(s', s.stages[ActsOn(s, t)].query)
    ensures var q := s.stages[ActsOn(s, t)].query;
            QueryRely(s.queries[q], s'.queries[q], s.stages, s'.stages, Actor(s, t))
  {
    hide Inv;
    HoldsOnlyItsOwn(s, t);
    StageOf(s, ActsOn(s, t));
    var q := s.stages[ActsOn(s, t)].query;
    var query := s.queries[q];
    if query.holder.Some? {
      var u := query.holder.value;
      assert HoldsLock(s, u, q);
      assert HoldsLock(s', u, q);
    }
  }

  /** The steps in which a helper's call returns. */
  lemma ReturnsKeep(s: State, t: nat)
    requires WellFormed(s) && Inv(s) && CanGo(s, t) && Acts(s, t) && ActsOn(s, t) < |s.stages|
    requires match Top(s.threads[t].stack)
             case Spread(f, left, checked) =>
               left == 0 || (if checked then s.stages[f].unspawned <= 0 else !Claimable(s.stages[f]))
             case Help(f, Claim) => !Claimable(s.stages[f])
             case Job(_, JobEnd) => true
             case _ => false
    ensures Inv(Go(s, t))
  {
    hide Inv, WellFormed, PlacesOk;
    ActsWithin(s, t);
    var top := Top(s.threads[t].stack);
    var f := top.stage;
    var stage := s.stages[f];
    StageOf(s, f);
    var stage' :=
      if top.Help? then stage.(next := stage.next + 1)
      else if top.Spread? && top.left > 0 && top.checked then stage.(unspawned := stage.unspawned - 1)
      else stage;
    PopKeeps(s, t, if top.Job? then None else s.threads[t].query, stage');
    PoppedIs(s, t, stage');
  }

  lemma PoppedIs(s: State, t: nat, stage: Stage)
    requires WellFormed(s) && CanGo(s, t) && Acts(s, t) && ActsOn(s, t) < |s.stages|
    requires Go(s, t).threads
             == s.threads[t := Thread(if Top(s.threads[t].stack).Job? then None else s.threads[t].query,
                                                       Below(s.threads[t].stack))]
    requires Go(s, t).stages == s.stages[ActsOn(s, t) := stage]
             || (Go(s, t).stages == s.stages && stage == s.stages[ActsOn(s, t)])
    requires Go(s, t).queries == s.queries && Go(s, t).pending == s.pending && Go(s, t).pool == s.pool
    ensures Go(s, t) == Popped(s, t, if Top(s.threads[t].stack).Job? then None else s.threads[t].query, stage)
  {
  }

  // ----- steps of code, and of forks that open and return -----

  /** A step that changes one thread's stack alone, from depth `k` on, and holds what it held. */
  lemma PlainKeeps(s: State, t: nat, k: nat, stack: seq<Frame>)
    requires WellFormed(s) && Inv(s) && t < |s.threads| && k < |s.threads[t].stack|
    requires k <= |stack| && stack[..k] == s.threads[t].stack[..k]
    requires k == |stack| > 0 ==> !s.threads[t].stack[k - 1].Help?
    requires Top(s.threads[t].stack).Code?
    requires WellFormed(WithStack(s, t, stack))
    requires forall d :: k <= d < |s.threads[t].stack| ==> FrameKept(s, WithStack(s, t, stack), t, d)
    requires Ordered(stack)
    requires s.threads[t].query.None? <==> stack == [] || (|stack| == 1 && stack[0].Code?)
    requires forall d :: k <= d < |stack| ==> FrameOk(WithStack(s, t, stack), t, d)
    ensures Inv(WithStack(s, t, stack))
  {
    hide Inv, WellFormed, FrameOk, StageOk, QueryOk, Ordered, FramesKept, FrameKept;
    var s' := WithStack(s, t, stack);
    forall g | 0 <= g < |s.stages| ensures FramesKept(s, s', t, g) {
      KeptAbove(s, s', t, k, g);
    }
    HoldsOnlyItsOwn(s, t);
    Concludes(s, s', Place(t, k), k, |s.stages|, |s.queries|);
  }

  /** Items that run in turn on their own thread. */
  lemma InTurnKeeps(s: State, t: nat)
    requires WellFormed(s) && Inv(s) && CanGo(s, t) && Top(s.threads[t].stack).Code?
             && Top(s.threads[t].stack).body.Fork?
    requires Helpers(|Top(s.threads[t].stack).body.items|, s.pool) == 0
    ensures Inv(Go(s, t))
  {
    hide Inv, StageOk, QueryOk;
    var k := |s.threads[t].stack| - 1;
    ThreadOf(s, t);
    FrameOf(s, t, k);
    var Fork(items, rest) := Top(s.threads[t].stack).body;
    var stack := Below(s.threads[t].stack) + [Code(InTurn(items, rest))];
    assert stack[..k] == s.threads[t].stack[..k];
    PlainKeeps(s, t, k, stack);
  }

  /** A caller's code ends. */
  lemma RootDoneKeeps(s: State, t: nat)
    requires WellFormed(s) && Inv(s) && CanGo(s, t) && |s.threads[t].stack| == 1
    requires Top(s.threads[t].stack).Code? && Top(s.threads[t].stack).body.Done?
    ensures Inv(Go(s, t))
  {
    hide Inv, StageOk, QueryOk;
    ThreadOf(s, t);
    PlainKeeps(s, t, 0, []);
  }

  /** An item's code ends, and its helper goes on to keep its panic or to count it. */
  lemma ItemDoneKeeps(s: State, t: nat)
    requires WellFormed(s) && Inv(s) && CanGo(s, t) && |s.threads[t].stack| > 1
    requires Top(s.threads[t].stack).Code? && Top(s.threads[t].stack).body.Done?
    ensures Inv(Go(s, t))
  {
    hide Inv, StageOk, QueryOk;
    var stack := s.threads[t].stack;
    var k := |stack| - 2;
    ThreadOf(s, t);
    FrameOf(s, t, k + 1);
    FrameOf(s, t, k);
    var Help(f, Running(i)) := stack[k];
    var Done(panic) := Top(stack).body;
    var pc := if panic.None? then Count(i, None) else Keep(i, panic.value);
    var stack' := stack[..k] + [Help(f, pc)];
    ItemDoneShape(s, t, k, pc);
    PlainKeeps(s, t, k, stack');
    assert Below(Below(stack)) == stack[..k];
  }

  lemma ItemDoneShape(s: State, t: nat, k: nat, pc: HelpPc)
    requires WellFormed(s) && t < |s.threads| && k == |s.threads[t].stack| - 2 && ThreadOk(s, t)
    requires FrameOk(s, t, k) && s.threads[t].stack[k].Help? && s.threads[t].stack[k].help.Running?
    requires pc == Count(s.threads[t].stack[k].help.index, None)
             || (pc.Keep? && pc.index == s.threads[t].stack[k].help.index)
    requires Top(s.threads[t].stack).Code?
    ensures var stack' := s.threads[t].stack[..k] + [Help(s.threads[t].stack[k].stage, pc)];
            && Ordered(stack')
            && WellFormed(WithStack(s, t, stack'))
            && FrameOk(WithStack(s, t, stack'), t, k)
            && FrameKept(s, WithStack(s, t, stack'), t, k)
            && s.threads[t].query.Some?
  {
    var stack := s.threads[t].stack;
    var stack' := stack[..k] + [Help(stack[k].stage, pc)];
    assert forall d :: 0 <= d < k ==> stack'[d] == stack[d];
    var s' := WithStack(s, t, stack');
    assert stack'[k] == Help(stack[k].stage, pc);
    assert s'.stages == s.stages && s'.queries == s.queries;
  }

  /** A fork: its stage is new, and so is its query when its thread was in none. */
  lemma ForkKeeps(s: State, t: nat)
    requires WellFormed(s) && Inv(s) && CanGo(s, t) && Top(s.threads[t].stack).Code?
             && Top(s.threads[t].stack).body.Fork?
    requires Helpers(|Top(s.threads[t].stack).body.items|, s.pool) > 0
    ensures Inv(Go(s, t))
  {
    hide Inv, WellFormed, FrameOk, StageOk, QueryOk, Ordered, FramesKept, FrameKept, Go, GoCode;
    var s' := Go(s, t);
    var k := |s.threads[t].stack| - 1;
    ForkWellFormed(s, t);
    ForkTouches(s, t);
    ForkShape(s, t);
    ForkStage(s, t);
    ForkKept(s, s', t, k);
    forall g | 0 <= g < |s.stages| ensures FramesKept(s, s', t, g) {
      KeptAbove(s, s', t, k, g);
    }
    HoldsOnlyItsOwn(s, t);
    Concludes(s, s', Place(t, k), k, |s.stages|, |s.queries|);
  }

  lemma ForkTouches(s: State, t: nat)
    requires WellFormed(s) && CanGo(s, t) && Top(s.threads[t].stack).Code? && Top(s.threads[t].stack).body.Fork?
    requires Helpers(|Top(s.threads[t].stack).body.items|, s.pool) > 0
    ensures Touches(s, Go(s, t), t, |s.stages|, |s.queries|)
    ensures |Go(s, t).stages| == |s.stages| + 1
  {
    hide WellFormed;
  }

  lemma ForkKept(s: State, s': State, t: nat, k: nat)
    requires t < |s.threads| == |s'.threads| && k < |s.threads[t].stack| && s.threads[t].stack[k].Code?
    ensures FrameKept(s, s', t, k)
  {
  }

  lemma ForkWellFormed(s: State, t: nat)
    requires WellFormed(s) && CanGo(s, t) && Top(s.threads[t].stack).Code? && Top(s.threads[t].stack).body.Fork?
    ensures WellFormed(Go(s, t))
  {
    var s' := Go(s, t);
    var stack := s.threads[t].stack;
    var stack' := s'.threads[t].stack;
    assert forall d :: 0 <= d < |stack| - 1 ==> stack'[d] == stack[d];
  }

  lemma ForkShape(s: State, t: nat)
    requires WellFormed(s) && Inv(s) && CanGo(s, t) && Top(s.threads[t].stack).Code?
             && Top(s.threads[t].stack).body.Fork?
    requires Helpers(|Top(s.threads[t].stack).body.items|, s.pool) > 0
    requires WellFormed(Go(s, t))
    ensures var (stack, stack') := (s.threads[t].stack, Go(s, t).threads[t].stack);
            && |stack'| == |stack| + 1
            && stack'[..|stack| - 1] == stack[..|stack| - 1]
            && Ordered(stack')
            && Go(s, t).threads[t].query.Some?
            && (|stack| > 1 ==> Go(s, t).threads[t].query == s.threads[t].query)
            && FrameOk(Go(s, t), t, |stack| - 1)
            && FrameOk(Go(s, t), t, |stack|)
  {
    hide Inv, StageOk, QueryOk, Ordered, RunOk, HelpOk;
    var stack := s.threads[t].stack;
    var k := |stack| - 1;
    ThreadOf(s, t);
    FrameOf(s, t, k);
    ForkOrdered(s, t);
    ForkRunOk(s, t);
    var s' := Go(s, t);
    var stack' := s'.threads[t].stack;
    assert forall d :: 0 <= d < k ==> stack'[d] == stack[d];
    assert stack'[k].Code? && stack'[k + 1].Run?;
  }

  lemma ForkOrdered(s: State, t: nat)
    requires WellFormed(s) && CanGo(s, t) && Top(s.threads[t].stack).Code? && Top(s.threads[t].stack).body.Fork?
    requires Helpers(|Top(s.threads[t].stack).body.items|, s.pool) > 0
    requires Ordered(s.threads[t].stack)
    ensures Ordered(Go(s, t).threads[t].stack)
  {
    var stack := s.threads[t].stack;
    var stack' := Go(s, t).threads[t].stack;
    var k := |stack| - 1;
    forall i, j | 0 <= i < j < |stack'| && stack'[i].Help? && stack'[j].Run? ensures stack'[i].stage < stack'[j].stage {
      assert i < k && stack'[i] == stack[i];
      assert j < k ==> stack'[j] == stack[j];
    }
  }

  lemma ForkRunOk(s: State, t: nat)
    requires WellFormed(s) && CanGo(s, t) && Top(s.threads[t].stack).Code? && Top(s.threads[t].stack).body.Fork?
    requires Helpers(|Top(s.threads[t].stack).body.items|, s.pool) > 0
    requires WellFormed(Go(s, t))
    requires s.threads[t].query.None? <==> |s.threads[t].stack| == 1
    ensures var s' := Go(s, t);
            var k := |s.threads[t].stack|;
            |s'.threads[t].stack| == k + 1 && CountsOn(s', Place(t, k), s'.threads[t].stack[k])
  {
    var s' := Go(s, t);
    assert s'.threads[t].stack[|s.threads[t].stack|] == Run(|s.stages|, s.threads[t].query.None?, Opening);
    assert s'.stages[|s.stages|].owner == Place(t, |s.threads[t].stack|);
  }

  lemma ForkStage(s: State, t: nat)
    requires WellFormed(s) && CanGo(s, t) && Top(s.threads[t].stack).Code? && Top(s.threads[t].stack).body.Fork?
    requires Helpers(|Top(s.threads[t].stack).body.items|, s.pool) > 0
    requires WellFormed(Go(s, t))
    ensures StageOk(Go(s, t), |s.stages|)
    ensures |s.queries| < |Go(s, t).queries| ==> |Go(s, t).queries| == |s.queries| + 1 && QueryOk(Go(s, t), |s.queries|)
  {
    var s' := Go(s, t);
    var stage := s'.stages[|s.stages|];
    assert UpTo(0) == [];
    assert CountsOk(stage, s.pool);
    var stack' := s'.threads[t].stack;
    assert stack'[|s.threads[t].stack|] == Top(stack');
  }

  /** A fork returns, raising the panic it kept. */
  lemma ReturnKeeps(s: State, t: nat)
    requires WellFormed(s) && Inv(s) && CanGo(s, t) && Top(s.threads[t].stack).Run?
    requires Top(s.threads[t].stack).run.Returning?
    ensures Inv(Go(s, t))
  {
    hide Inv, WellFormed, FrameOk, StageOk, QueryOk, PlacesOk, CountsOk, StageRely, QueryRely, Ordered,
         FramesKept, FrameKept;
    ActsWithin(s, t);
    var s' := Go(s, t);
    var f := ActsOn(s, t);
    var q := s.stages[f].query;
    var k := |s.threads[t].stack| - 2;
    ReturnShape(s, t);
    ReturnStage(s, t);
    forall g | 0 <= g < |s.stages| && g != f ensures FramesKept(s, s', t, g) {
      ForkKept(s, s', t, k);
      KeptAbove(s, s', t, k, g);
    }
    PopQuery(s, s', t);
    HoldsOnlyItsOwn(s, t);
    Concludes(s, s', Actor(s, t), k, f, q);
  }

  lemma ReturnShape(s: State, t: nat)
    requires WellFormed(s) && Inv(s) && CanGo(s, t) && Top(s.threads[t].stack).Run?
    requires Top(s.threads[t].stack).run.Returning?
    ensures WellFormed(Go(s, t))
    ensures var (stack, stack') := (s.threads[t].stack, Go(s, t).threads[t].stack);
            && |stack| > 1 && stack[|stack| - 2].Code?
            && |stack'| == |stack| - 1
            && stack'[..|stack| - 2] == stack[..|stack| - 2]
            && Ordered(stack')
            && (Go(s, t).threads[t].query.None? <==> |stack'| == 1 && stack'[0].Code?)
            && (|stack| > 2 ==> Go(s, t).threads[t].query == s.threads[t].query)
            && FrameOk(Go(s, t), t, |stack| - 2)
    ensures |Go(s, t).threads| == |s.threads| && |Go(s, t).stages| == |s.stages|
    ensures Go(s, t).queries == s.queries && Go(s, t).pool == s.pool
    ensures forall u :: 0 <= u < |s.threads| && u != t ==> Go(s, t).threads[u] == s.threads[u]
    ensures Go(s, t).stages == s.stages[ActsOn(s, t) := s.stages[ActsOn(s, t)].(panic := None, returned := true)]
  {
    hide Inv, StageOk, QueryOk;
    var stack := s.threads[t].stack;
    var k := |stack| - 2;
    ThreadOf(s, t);
    FrameOf(s, t, k + 1);
    FrameOf(s, t, k);
    var s' := Go(s, t);
    var stack' := s'.threads[t].stack;
    assert forall d :: 0 <= d < k ==> stack'[d] == stack[d];
  }

  lemma ReturnStage(s: State, t: nat)
    requires WellFormed(s) && Inv(s) && CanGo(s, t) && Top(s.threads[t].stack).Run?
    requires Top(s.threads[t].stack).run.Returning?
    requires ActsOn(s, t) < |s.stages| && s.stages[ActsOn(s, t)].query < |s.queries|
    requires WellFormed(Go(s, t))
    requires Go(s, t).stages == s.stages[ActsOn(s, t) := s.stages[ActsOn(s, t)].(panic := None, returned := true)]
    requires |Go(s, t).threads| == |s.threads| && Go(s, t).pool == s.pool
    requires forall u :: 0 <= u < |s.threads| && u != t ==> Go(s, t).threads[u] == s.threads[u]
    ensures StageOk(Go(s, t), ActsOn(s, t))
    ensures var stage := s.stages[ActsOn(s, t)];
            StageRely(stage, stage.(panic := None, returned := true), s.queries[stage.query], s.queries[stage.query],
                      Actor(s, t))
  {
    hide Inv, WellFormed, QueryOk, ShapeOk, Go;
    var f := ActsOn(s, t);
    var s' := Go(s, t);
    var stage := s.stages[f];
    StageOf(s, f);
    FrameOf(s, t, |s.threads[t].stack| - 1);
    assert |stage.held| == 0;
    assert stage.held == map[];
    var stage' := s'.stages[f];
    forall k | 0 <= k < |stage'.kept| ensures KeptOk(s', stage', stage'.kept[k].0, stage'.kept[k].1) {
      assert KeptOk(s, stage, stage.kept[k].0, stage.kept[k].1);
    }
  }

  /** An idle thread starts a caller's code or a spawned helper. */
  lemma TakeKeeps(s: State, t: nat, k: nat)
    requires WellFormed(s) && Inv(s) && CanTake(s, t, k)
    ensures Inv(Take(s, t, k))
  {
    hide Inv, StageOk, QueryOk, QueryRely;
    var s' := Take(s, t, k);
    ThreadOf(s, t);
    assert WellFormed(s');
    TakeRely(s, s', t);
    assert ThreadOk(s', t);
    forall g | 0 <= g < |s'.stages| ensures StageOk(s', g) {
      StageOf(s, g);
      StagePlaces(s, g);
      PlacesKeep(s, s', t, g, s.stages[g]);
      StageFrom(s', g);
    }
    HoldsOnlyItsOwn(s, t);
    forall q | 0 <= q < |s'.queries| ensures QueryOk(s', q) {
      QueryIn(s, q);
      OtherQueryKeeps(s, s', Place(t, 0), q);
    }
    Assemble(s, s', Place(t, 0));
  }

  lemma QueryIn(s: State, q: nat)
    requires Inv(s) && q < |s.queries|
    ensures QueryOk(s, q)
  {
  }

  lemma TakeRely(s: State, s': State, t: nat)
    requires WellFormed(s) && WellFormed(s') && t < |s.threads| == |s'.threads|
    requires s'.stages == s.stages && s'.queries == s.queries && s'.pool == s.pool
    requires forall u :: 0 <= u < |s.threads| && u != t ==> s'.threads[u] == s.threads[u]
    ensures Rely(s, s', Place(t, 0))
  {
    TouchedRely(s, s', Place(t, 0), |s.stages|, |s.queries|);
  }
}
