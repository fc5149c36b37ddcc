/**
 What items may end as, read off their code alone, and that the scheduler ends them as nothing
 else. An item ends without a panic or with one; a fork ends with the panic of one of its
 items, or, where every item can end without one, as what follows it.
 */
module ForkJoinOutcomes {
  import opened Wrappers
  import opened ForkJoin
  import opened ForkJoinInvariant
  import opened ForkJoinSteps
  import opened ForkJoinSafety

  /** The code may end so, whoever runs its forks' items and in whatever order. */
  predicate MayEnd(body: Body, outcome: Option<Panic>)
    decreases body
  {
    match body
    case Done(panic) => outcome == panic
    case Fork(items, rest) =>
      || (outcome.Some? && exists i :: 0 <= i < |items| && MayEnd(items[i], outcome))
      || (MayEnd(rest, outcome) && forall i :: 0 <= i < |items| ==> MayEnd(items[i], None))
  }

  /** The items one after the other may end so: with a panic of one after those before it end without, or as what
      follows them all. */
  predicate MayEndInTurn(items: seq<Body>, rest: Body, outcome: Option<Panic>) {
    || (outcome.Some? && exists j :: 0 <= j < |items| && MayEnd(items[j], outcome)
                                     && forall i :: 0 <= i < j ==> MayEnd(items[i], None))
    || (MayEnd(rest, outcome) && forall i :: 0 <= i < |items| ==> MayEnd(items[i], None))
  }

  lemma {:induction false} AppendEnds(first: Body, second: Body, outcome: Option<Panic>)
    ensures MayEnd(Append(first, second), outcome)
            <==> (outcome.Some? && MayEnd(first, outcome)) || (MayEnd(first, None) && MayEnd(second, outcome))
    decreases first
  {
    if first.Fork? {
      AppendEnds(first.rest, second, outcome);
    }
  }

  /** Running the items in turn may end as exactly that. */
  lemma {:induction false} InTurnEnds(items: seq<Body>, rest: Body, outcome: Option<Panic>)
    ensures MayEnd(InTurn(items, rest), outcome) <==> MayEndInTurn(items, rest, outcome)
  {
    hide MayEnd;
    if items != [] {
      var later := items[1..];
      AppendEnds(items[0], InTurn(later, rest), outcome);
      InTurnEnds(later, rest, outcome);
      if MayEnd(InTurn(items, rest), outcome) && !(outcome.Some? && MayEnd(items[0], outcome)) {
        if outcome.Some? && exists j :: 0 <= j < |later| && MayEnd(later[j], outcome)
                                        && forall i :: 0 <= i < j ==> MayEnd(later[i], None) {
          var j :| 0 <= j < |later| && MayEnd(later[j], outcome) && forall i :: 0 <= i < j ==> MayEnd(later[i], None);
          assert items[j + 1] == later[j];
          assert forall i :: 0 <= i < j + 1 ==> items[i] == if i == 0 then items[0] else later[i - 1];
        } else {
          assert forall i :: 0 <= i < |items| ==> items[i] == if i == 0 then items[0] else later[i - 1];
        }
      }
      if MayEndInTurn(items, rest, outcome) && !(outcome.Some? && MayEnd(items[0], outcome)) {
        assert forall i :: 0 <= i < |later| ==> later[i] == items[i + 1];
        if j :| outcome.Some? && 0 <= j < |items| && MayEnd(items[j], outcome)
                && forall i :: 0 <= i < j ==> MayEnd(items[i], None) {
          assert MayEnd(later[j - 1], outcome);
        }
      }
    }
  }

  /** Whatever items in turn may end as, the fork of them may. */
  lemma InTurnWithin(items: seq<Body>, rest: Body, outcome: Option<Panic>)
    requires MayEnd(InTurn(items, rest), outcome)
    ensures MayEnd(Fork(items, rest), outcome)
  {
    InTurnEnds(items, rest, outcome);
  }

  /** Every item may end somehow. */
  lemma {:induction false} EndsSomehow(body: Body) returns (outcome: Option<Panic>)
    ensures MayEnd(body, outcome)
    decreases body
  {
    match body
    case Done(panic) => outcome := panic;
    case Fork(items, rest) =>
      if i :| 0 <= i < |items| && !MayEnd(items[i], None) {
        outcome := EndsSomehow(items[i]);
      } else {
        outcome := EndsSomehow(rest);
      }
  }

  /** And a fork may end without a panic, or with one, exactly where its items in turn may. */
  lemma InTurnAlike(items: seq<Body>, rest: Body)
    ensures MayEnd(Fork(items, rest), None) <==> MayEnd(InTurn(items, rest), None)
    ensures (exists panic: Panic :: MayEnd(Fork(items, rest), Some(panic)))
            <==> exists panic: Panic :: MayEnd(InTurn(items, rest), Some(panic))
  {
    InTurnEnds(items, rest, None);
    if panic: Panic :| MayEnd(Fork(items, rest), Some(panic)) {
      if j :| 0 <= j < |items| && MayEnd(items[j], Some(panic)) {
        var k, raised := FirstToPanic(items, j, panic);
        InTurnEnds(items, rest, Some(raised));
      } else {
        InTurnEnds(items, rest, Some(panic));
      }
    }
    if panic: Panic :| MayEnd(InTurn(items, rest), Some(panic)) {
      InTurnWithin(items, rest, Some(panic));
    }
  }

  /** Of items of which one may panic, one that may do so first. */
  lemma {:induction false} FirstToPanic(items: seq<Body>, j: nat, panic: Panic) returns (k: nat, raised: Panic)
    requires j < |items| && MayEnd(items[j], Some(panic))
    ensures k < |items| && MayEnd(items[k], Some(raised)) && forall i :: 0 <= i < k ==> MayEnd(items[i], None)
    decreases j
  {
    hide MayEnd;
    k, raised := j, panic;
    if i: nat :| i < j && !MayEnd(items[i], None) {
      var outcome := EndsSomehow(items[i]);
      k, raised := FirstToPanic(items, i, outcome.value);
    }
  }

  // ----- what the frames in progress may still end as -----

  /** The code at depth `d` may end so: with the fork in progress above it, where there is one, still to end. */
  predicate Ends(stages: seq<Stage>, stack: seq<Frame>, d: nat, outcome: Option<Panic>) {
    && d < |stack| && stack[d].Code?
    && if d + 1 < |stack| && stack[d + 1].Run? && stack[d + 1].stage < |stages|
       then MayEnd(Fork(stages[stack[d + 1].stage].items, stack[d].body), outcome)
       else MayEnd(stack[d].body, outcome)
  }

  /** What a helper's frame runs, keeps or counts is an end its item may have. */
  ghost predicate HelpMeans(stages: seq<Stage>, stack: seq<Frame>, d: nat)
    requires d < |stack|
  {
    stack[d].Help? && stack[d].stage < |stages| ==>
      var items := stages[stack[d].stage].items;
      match stack[d].help
      case Running(i) =>
        i < |items| && forall outcome :: Ends(stages, stack, d + 1, outcome) ==> MayEnd(items[i], outcome)
      case Keep(i, panic) => i < |items| && MayEnd(items[i], Some(panic))
      case Count(i, outcome) => i < |items| && MayEnd(items[i], outcome)
      case _ => true
  }

  ghost predicate StackMeans(stages: seq<Stage>, stack: seq<Frame>) {
    forall d :: 0 <= d < |stack| ==> HelpMeans(stages, stack, d)
  }

  /** Ended items ended as they may. */
  ghost predicate EndedMeans(stage: Stage) {
    forall i :: i in stage.ended ==> i < |stage.items| && MayEnd(stage.items[i], stage.ended[i])
  }

  ghost predicate Means(s: State) {
    && (forall t :: 0 <= t < |s.threads| ==> StackMeans(s.stages, s.threads[t].stack))
    && (forall f :: 0 <= f < |s.stages| ==> EndedMeans(s.stages[f]))
  }

  /** Stages keep their items. */
  ghost predicate ItemsKept(stages: seq<Stage>, stages': seq<Stage>) {
    |stages| <= |stages'| && forall f :: 0 <= f < |stages| ==> stages'[f].items == stages[f].items
  }

  /** Code that goes on may end as nothing it could not end as before. */
  ghost predicate Narrows(stages: seq<Stage>, stack: seq<Frame>, stages': seq<Stage>, stack': seq<Frame>) {
    forall d: nat, outcome :: d < |stack| && stack[d].Code? && d < |stack'| ==>
      stack'[d].Code? && (Ends(stages', stack', d, outcome) ==> Ends(stages, stack, d, outcome))
  }

  /** Every stage a frame is of exists. */
  predicate Within(stages: seq<Stage>, stack: seq<Frame>) {
    forall d :: 0 <= d < |stack| && !stack[d].Code? ==> stack[d].stage < |stages|
  }

  // ----- one step -----

  /** A stack no step touches means what it did. */
  lemma OthersMean(stages: seq<Stage>, stages': seq<Stage>, stack: seq<Frame>)
    requires ItemsKept(stages, stages') && Within(stages, stack) && StackMeans(stages, stack)
    ensures StackMeans(stages', stack) && Narrows(stages, stack, stages', stack)
  {
    hide MayEnd;
    forall d: nat, outcome | d < |stack| && stack[d].Code?
      ensures Ends(stages', stack, d, outcome) <==> Ends(stages, stack, d, outcome)
    {
    }
    forall d | 0 <= d < |stack| ensures HelpMeans(stages', stack, d) {
      assert HelpMeans(stages, stack, d);
    }
  }

  /** The innermost call, not one of code, is replaced by frames of which the first is of its kind and stage, or by
      none where it is no fork's. */
  lemma Stays(stages: seq<Stage>, stages': seq<Stage>, stack: seq<Frame>, frames: seq<Frame>)
    requires ItemsKept(stages, stages') && Within(stages, stack) && StackMeans(stages, stack)
    requires stack != [] && !Top(stack).Code? && (|stack| > 1 ==> !stack[|stack| - 2].Help?)
    requires Top(stack).Run? ==> frames != [] && frames[0].Run? && frames[0].stage == Top(stack).stage
    requires frames != [] && !Top(stack).Run? ==> !frames[0].Run?
    requires forall d :: |stack| - 1 <= d < |stack| - 1 + |frames| ==> HelpMeans(stages', Below(stack) + frames, d)
    requires frames != [] ==> !frames[0].Code?
    ensures StackMeans(stages', Below(stack) + frames) && Narrows(stages, stack, stages', Below(stack) + frames)
  {
    hide MayEnd;
    var (n, stack') := (|stack| - 1, Below(stack) + frames);
    forall d: nat, outcome | d < n && stack[d].Code?
      ensures Ends(stages', stack', d, outcome) <==> Ends(stages, stack, d, outcome)
    {
    }
    forall d | 0 <= d < |stack'| ensures HelpMeans(stages', stack', d) {
      if d < n {
        assert HelpMeans(stages, stack, d);
      }
    }
  }

  /** Code replaced by code that may end as no more. */
  lemma CodeNarrows(stages: seq<Stage>, stages': seq<Stage>, stack: seq<Frame>, frames: seq<Frame>)
    requires ItemsKept(stages, stages') && Within(stages, stack) && StackMeans(stages, stack)
    requires stack != [] && Top(stack).Code?
    requires frames != [] && frames[0].Code? && |frames| <= 2 && (|frames| == 2 ==> frames[1].Run?)
    requires forall outcome :: Ends(stages', Below(stack) + frames, |stack| - 1, outcome) ==>
               MayEnd(Top(stack).body, outcome)
    ensures StackMeans(stages', Below(stack) + frames) && Narrows(stages, stack, stages', Below(stack) + frames)
  {
    hide MayEnd;
    var (n, stack') := (|stack| - 1, Below(stack) + frames);
    forall d: nat, outcome | d < n && stack[d].Code?
      ensures Ends(stages', stack', d, outcome) <==> Ends(stages, stack, d, outcome)
    {
    }
    assert Narrows(stages, stack, stages', stack');
    forall d | 0 <= d < |stack'| ensures HelpMeans(stages', stack', d) {
      if d < n {
        assert HelpMeans(stages, stack, d);
      }
    }
  }

  // ----- each thread's step -----

  /** What a step leaves behind: stages keep their items, ended items ended as they may, and the thread's code goes on
      as it may. */
  ghost predicate GoesOn(s: State, s': State, t: nat)
    requires t < |s.threads| == |s'.threads|
  {
    && ItemsKept(s.stages, s'.stages)
    && (forall f :: 0 <= f < |s'.stages| ==> EndedMeans(s'.stages[f]))
    && StackMeans(s'.stages, s'.threads[t].stack)
    && Narrows(s.stages, s.threads[t].stack, s'.stages, s'.threads[t].stack)
  }

  /** The frames and stages a step of thread `t` starts from. */
  lemma StartsFrom(s: State, t: nat)
    requires WellFormed(s) && Inv(s) && Means(s) && t < |s.threads| && s.threads[t].stack != []
    ensures Within(s.stages, s.threads[t].stack) && StackMeans(s.stages, s.threads[t].stack)
    ensures forall f :: 0 <= f < |s.stages| ==> EndedMeans(s.stages[f])
    ensures ShapeOk(s.threads[t], s.stages, |s.threads[t].stack| - 1)
  {
    hide Inv;
    FrameOf(s, t, |s.threads[t].stack| - 1);
  }

  lemma CodeGoes(s: State, t: nat)
    requires WellFormed(s) && Inv(s) && Means(s) && CanGo(s, t) && Top(s.threads[t].stack).Code?
    ensures GoesOn(s, Go(s, t), t)
  {
    hide Inv, WellFormed, MayEnd, InTurn, GoRun, GoHelp, GoJob, GoSpread;
    StartsFrom(s, t);
    var (stack, s') := (s.threads[t].stack, Go(s, t));
    var below := Below(stack);
    match Top(stack).body
    case Fork(items, rest) =>
      if Helpers(|items|, s.pool) == 0 {
        forall outcome | Ends(s'.stages, s'.threads[t].stack, |below|, outcome)
          ensures MayEnd(Fork(items, rest), outcome)
        {
          InTurnWithin(items, rest, outcome);
        }
        CodeNarrows(s.stages, s'.stages, stack, [Code(InTurn(items, rest))]);
      } else {
        var frames := [Code(rest), Run(|s.stages|, s.threads[t].query.None?, Opening)];
        assert s'.threads[t].stack == below + frames;
        assert s'.stages[|s.stages|].items == items;
        CodeNarrows(s.stages, s'.stages, stack, frames);
      }
    case Done(panic) =>
      if below != [] {
        ItemEnds(s, t);
      }
  }

  /** Code that ended inside an item: the helper keeps or counts an end the item may have. */
  lemma ItemEnds(s: State, t: nat)
    requires WellFormed(s) && Inv(s) && Means(s) && CanGo(s, t)
    requires |s.threads[t].stack| > 1 && Top(s.threads[t].stack).Code? && Top(s.threads[t].stack).body.Done?
    ensures GoesOn(s, Go(s, t), t)
  {
    hide Inv, WellFormed, GoRun, GoHelp, GoJob, GoSpread;
    StartsFrom(s, t);
    var (stack, s') := (s.threads[t].stack, Go(s, t));
    var (n, stack') := (|stack| - 1, s'.threads[t].stack);
    var panic := Top(stack).body.panic;
    assert HelpMeans(s.stages, stack, n - 1);
    assert Ends(s.stages, stack, n, panic);
    hide MayEnd;
    assert stack[n - 1].Help? && stack[n - 1].help.Running?;
    assert |stack'| == n && stack'[..n - 1] == stack[..n - 1];
    forall d | 0 <= d < |stack'| ensures HelpMeans(s'.stages, stack', d) {
      assert HelpMeans(s.stages, stack, d);
      assert d < n - 1 ==> stack'[d] == stack'[..n - 1][d] == stack[d];
      assert d + 1 < n - 1 ==> stack'[d + 1] == stack'[..n - 1][d + 1] == stack[d + 1];
      assert d + 2 < n - 1 ==> stack'[d + 2] == stack'[..n - 1][d + 2] == stack[d + 2];
    }
    forall d: nat, outcome | d < n && stack[d].Code?
      ensures stack'[d].Code? && (Ends(s'.stages, stack', d, outcome) <==> Ends(s.stages, stack, d, outcome))
    {
      assert stack'[d] == stack'[..n - 1][d] == stack[d];
      assert d + 1 < n - 1 ==> stack'[d + 1] == stack'[..n - 1][d + 1] == stack[d + 1];
    }
  }

  /** Frames that hold no item. */
  predicate Plain(frames: seq<Frame>) {
    forall k :: 0 <= k < |frames| ==> !frames[k].Code? && Holds(frames[k]).None?
  }

  lemma PlainStays(stages: seq<Stage>, stages': seq<Stage>, stack: seq<Frame>, frames: seq<Frame>)
    requires ItemsKept(stages, stages') && Within(stages, stack) && StackMeans(stages, stack)
    requires stack != [] && !Top(stack).Code? && (|stack| > 1 ==> !stack[|stack| - 2].Help?)
    requires Top(stack).Run? ==> frames != [] && frames[0].Run? && frames[0].stage == Top(stack).stage
    requires frames != [] && !Top(stack).Run? ==> !frames[0].Run?
    requires Plain(frames)
    ensures StackMeans(stages', Below(stack) + frames) && Narrows(stages, stack, stages', Below(stack) + frames)
  {
    hide MayEnd, StackMeans, Narrows, Ends, Within, ItemsKept;
    Stays(stages, stages', stack, frames);
  }

  /** What a fork's step puts in its place: itself at its next step, and perhaps a call. */
  lemma RunFrames(s: State, t: nat) returns (frames: seq<Frame>)
    requires WellFormed(s) && CanGo(s, t)
    requires Top(s.threads[t].stack).Run? && !Top(s.threads[t].stack).run.Returning?
    ensures Go(s, t).threads[t].stack == Below(s.threads[t].stack) + frames
    ensures frames != [] && frames[0].Run? && frames[0].stage == Top(s.threads[t].stack).stage && Plain(frames)
  {
    hide WellFormed, GoCode, GoHelp, GoJob, GoSpread;
    ActsWithin(s, t);
    frames := Go(s, t).threads[t].stack[|s.threads[t].stack| - 1..];
  }

  lemma RunStages(s: State, t: nat)
    requires WellFormed(s) && CanGo(s, t) && Top(s.threads[t].stack).Run?
    ensures ActsOn(s, t) < |s.stages| && ChangesOne(s, Go(s, t), ActsOn(s, t), s.stages[ActsOn(s, t)].ended)
  {
    hide WellFormed, GoCode, GoHelp, GoJob, GoSpread;
    ActsWithin(s, t);
  }

  lemma RunGoes(s: State, t: nat)
    requires WellFormed(s) && Inv(s) && Means(s) && CanGo(s, t)
    requires Top(s.threads[t].stack).Run? && !Top(s.threads[t].stack).run.Returning?
    ensures GoesOn(s, Go(s, t), t)
  {
    hide Inv, WellFormed, Means, Go, GoesOn, EndedMeans, StackMeans, Within, ItemsKept, ShapeOk, Narrows, Plain;
    StartsFrom(s, t);
    RunStages(s, t);
    StagesGo(s, t, s.stages[ActsOn(s, t)].ended);
    var frames := RunFrames(s, t);
    NotOnHelp(s, t);
    PlainStays(s.stages, Go(s, t).stages, s.threads[t].stack, frames);
    GoesOnIs(s, t);
  }

  /** Where a fork returns, it ended as one of its items' panics, or they all ended without one. */
  lemma ForkEnds(s: State, t: nat, rest: Body, outcome: Option<Panic>)
    requires WellFormed(s) && Inv(s) && Means(s) && CanGo(s, t)
    requires Top(s.threads[t].stack).Run? && Top(s.threads[t].stack).run.Returning?
    ensures var stage := s.stages[Top(s.threads[t].stack).stage];
            (if stage.panic.None? then MayEnd(rest, outcome) else outcome == stage.panic) ==>
              MayEnd(Fork(stage.items, rest), outcome)
  {
    hide Inv, WellFormed;
    ActsWithin(s, t);
    ReturnsWith(s, t);
    var stage := s.stages[Top(s.threads[t].stack).stage];
    assert EndedMeans(stage);
    if stage.panic.None? {
      forall i | 0 <= i < |stage.items| ensures MayEnd(stage.items[i], None) {
        assert i in stage.ended.Keys;
      }
    } else {
      assert stage.kept[0].0 in stage.ended;
    }
  }

  /** The innermost call ends, and the code below it goes on. */
  lemma CodeGoesOn(stages: seq<Stage>, stages': seq<Stage>, stack: seq<Frame>, stack': seq<Frame>, last: nat)
    requires ItemsKept(stages, stages') && Within(stages, stack) && StackMeans(stages, stack)
    requires |stack| == last + 2 && |stack'| == last + 1 && stack'[..last] == stack[..last]
    requires stack[last].Code? && stack'[last].Code?
    requires forall outcome :: Ends(stages', stack', last, outcome) ==> Ends(stages, stack, last, outcome)
    ensures StackMeans(stages', stack') && Narrows(stages, stack, stages', stack')
  {
    hide MayEnd;
    assert forall d :: 0 <= d < last ==> stack'[d] == stack'[..last][d] == stack[d];
    forall d: nat, outcome | d <= last && stack[d].Code?
      ensures stack'[d].Code? && (Ends(stages', stack', d, outcome) ==> Ends(stages, stack, d, outcome))
    {
    }
    forall d | 0 <= d <= last ensures HelpMeans(stages', stack', d) {
      assert HelpMeans(stages, stack, d);
    }
  }

  lemma Returned(s: State, t: nat)
    requires WellFormed(s) && CanGo(s, t)
    requires Top(s.threads[t].stack).Run? && Top(s.threads[t].stack).run.Returning?
    requires |s.threads[t].stack| > 1 && s.threads[t].stack[|s.threads[t].stack| - 2].Code?
    ensures var (stack, stack') := (s.threads[t].stack, Go(s, t).threads[t].stack);
            var stage := s.stages[Top(stack).stage];
            && |stack'| == |stack| - 1 && stack'[..|stack| - 2] == stack[..|stack| - 2]
            && stack'[|stack| - 2] == if stage.panic.None? then stack[|stack| - 2] else Code(Done(stage.panic))
  {
    hide WellFormed, GoCode, GoHelp, GoJob, GoSpread;
    ActsWithin(s, t);
  }

  lemma ReturnGoes(s: State, t: nat)
    requires WellFormed(s) && Inv(s) && Means(s) && CanGo(s, t)
    requires Top(s.threads[t].stack).Run? && Top(s.threads[t].stack).run.Returning?
    ensures GoesOn(s, Go(s, t), t)
  {
    hide Inv, WellFormed, Means, Go, GoesOn, EndedMeans, StackMeans, Within, ItemsKept, Narrows, HelpMeans;
    StartsFrom(s, t);
    ActsWithin(s, t);
    RunStages(s, t);
    StagesGo(s, t, s.stages[ActsOn(s, t)].ended);
    Returned(s, t);
    var (stack, stages') := (s.threads[t].stack, Go(s, t).stages);
    var (stack', last) := (Go(s, t).threads[t].stack, |stack| - 2);
    forall outcome | Ends(stages', stack', last, outcome) ensures Ends(s.stages, stack, last, outcome) {
      ForkEnds(s, t, stack[last].body, outcome);
    }
    CodeGoesOn(s.stages, stages', stack, stack', last);
    GoesOnIs(s, t);
  }

  /** The stages after a step that changes one of them: they keep their items, and ended items ended as they may. */
  lemma StagesGo(s: State, t: nat, ended: map<nat, Option<Panic>>)
    requires WellFormed(s) && CanGo(s, t) && Acts(s, t) && ChangesOne(s, Go(s, t), ActsOn(s, t), ended)
    requires forall f :: 0 <= f < |s.stages| ==> EndedMeans(s.stages[f])
    requires var was := s.stages[ActsOn(s, t)];
             forall i :: i in ended ==>
               (i in was.ended && ended[i] == was.ended[i]) || (i < |was.items| && MayEnd(was.items[i], ended[i]))
    ensures ItemsKept(s.stages, Go(s, t).stages)
    ensures forall f :: 0 <= f < |Go(s, t).stages| ==> EndedMeans(Go(s, t).stages[f])
  {
    hide MayEnd, WellFormed, EndedMeans, Go;
    var (s', g) := (Go(s, t), ActsOn(s, t));
    assert EndedMeans(s.stages[g]);
    EndedStep(s.stages[g], s'.stages[g]);
  }

  ghost predicate ChangesOne(s: State, s': State, g: nat, ended: map<nat, Option<Panic>>) {
    && g < |s.stages| == |s'.stages|
    && (forall f :: 0 <= f < |s.stages| && f != g ==> s'.stages[f] == s.stages[f])
    && s'.stages[g].items == s.stages[g].items && s'.stages[g].ended == ended
  }

  lemma OneStage(s: State, t: nat)
    requires WellFormed(s) && CanGo(s, t)
    requires var top := Top(s.threads[t].stack); top.Job? || top.Spread?
    ensures ActsOn(s, t) < |s.stages| && ChangesOne(s, Go(s, t), ActsOn(s, t), s.stages[ActsOn(s, t)].ended)
  {
    hide WellFormed, GoCode, GoRun, GoHelp;
    ActsWithin(s, t);
  }

  lemma HelpStage(s: State, t: nat)
    requires WellFormed(s) && CanGo(s, t) && Top(s.threads[t].stack).Help?
    ensures ActsOn(s, t) < |s.stages|
    ensures var (was, help) := (s.stages[ActsOn(s, t)], Top(s.threads[t].stack).help);
            ChangesOne(s, Go(s, t), ActsOn(s, t),
                       if help.Count? then was.ended[help.index := help.outcome] else was.ended)
  {
    hide WellFormed, GoCode, GoRun, GoJob, GoSpread;
    ActsWithin(s, t);
    match Top(s.threads[t].stack).help
    case Count(_, _) =>
    case Claim =>
    case _ =>
  }

  lemma EndedStep(was: Stage, now: Stage)
    requires EndedMeans(was) && now.items == was.items
    requires forall i :: i in now.ended ==>
               (i in was.ended && now.ended[i] == was.ended[i])
               || (i < |now.items| && MayEnd(now.items[i], now.ended[i]))
    ensures EndedMeans(now)
  {
    hide MayEnd;
  }

  /** What a helper's step puts in its place: nothing, or itself at its next step, and an item it claimed. */
  lemma HelpFrames(s: State, t: nat) returns (frames: seq<Frame>)
    requires WellFormed(s) && CanGo(s, t) && Top(s.threads[t].stack).Help? && Within(s.stages, s.threads[t].stack)
    requires HelpMeans(s.stages, s.threads[t].stack, |s.threads[t].stack| - 1)
    requires ItemsKept(s.stages, Go(s, t).stages)
    ensures Go(s, t).threads[t].stack == Below(s.threads[t].stack) + frames
    ensures frames != [] ==> frames[0].Help?
    ensures forall d :: |s.threads[t].stack| - 1 <= d < |s.threads[t].stack| - 1 + |frames| ==>
              HelpMeans(Go(s, t).stages, Below(s.threads[t].stack) + frames, d)
  {
    hide MayEnd, WellFormed, GoCode, GoRun, GoJob, GoSpread, HelpMeans, ItemsKept;
    ActsWithin(s, t);
    var stack := s.threads[t].stack;
    var (f, below) := (Top(stack).stage, Below(stack));
    var stage := s.stages[f];
    match Top(stack).help {
      case Claim =>
        frames := if Claimable(stage) then [Help(f, Running(stage.next)), Code(stage.items[stage.next])] else [];
      case Keep(i, panic) => frames := [Help(f, Count(i, Some(panic)))];
      case Count(_, _) => frames := [Help(f, if stage.unfinished <= 1 then NotifyLock else Claim)];
      case NotifyLock => frames := [Help(f, NotifyAll)];
      case NotifyAll => frames := [Help(f, Claim)];
    }
    assert Go(s, t).threads[t].stack == below + frames;
    FramesMean(s.stages, Go(s, t).stages, stack, frames);
  }

  lemma FramesMean(stages: seq<Stage>, stages': seq<Stage>, stack: seq<Frame>, frames: seq<Frame>)
    requires stack != [] && Top(stack).Help? && Top(stack).stage < |stages| && ItemsKept(stages, stages')
    requires HelpMeans(stages, stack, |stack| - 1)
    requires var stage := stages[Top(stack).stage];
             || frames == []
             || (|frames| == 1 && frames[0].Help? && frames[0].stage == Top(stack).stage
                 && match frames[0].help
                    case Running(_) => false
                    case Keep(_, _) => false
                    case Count(i, outcome) => outcome.Some? && Top(stack).help == Keep(i, outcome.value)
                    case _ => true)
             || (Claimable(stage)
                 && frames == [Help(Top(stack).stage, Running(stage.next)), Code(stage.items[stage.next])])
    ensures forall d :: |stack| - 1 <= d < |stack| - 1 + |frames| ==> HelpMeans(stages', Below(stack) + frames, d)
  {
    hide MayEnd;
  }

  lemma HelpGoes(s: State, t: nat)
    requires WellFormed(s) && Inv(s) && Means(s) && CanGo(s, t) && Top(s.threads[t].stack).Help?
    ensures GoesOn(s, Go(s, t), t)
  {
    hide Inv, WellFormed, Means, Go, GoesOn, EndedMeans, StackMeans, Within, ItemsKept, ShapeOk, Narrows, MayEnd, Ends;
    StartsFrom(s, t);
    var (stack, help) := (s.threads[t].stack, Top(s.threads[t].stack).help);
    TopMeans(s.stages, stack);
    HelpStage(s, t);
    var was := s.stages[ActsOn(s, t)];
    StagesGo(s, t, if help.Count? then was.ended[help.index := help.outcome] else was.ended);
    var frames := HelpFrames(s, t);
    NotOnHelp(s, t);
    Stays(s.stages, Go(s, t).stages, stack, frames);
    GoesOnIs(s, t);
  }

  lemma JobFrames(s: State, t: nat) returns (frames: seq<Frame>)
    requires WellFormed(s) && CanGo(s, t)
    requires Top(s.threads[t].stack).Job? || Top(s.threads[t].stack).Spread?
    ensures Go(s, t).threads[t].stack == Below(s.threads[t].stack) + frames
    ensures Plain(frames) && (frames != [] ==> !frames[0].Run?)
  {
    hide WellFormed, GoCode, GoHelp, GoRun;
    ActsWithin(s, t);
    frames := Go(s, t).threads[t].stack[|s.threads[t].stack| - 1..];
  }

  lemma JobGoes(s: State, t: nat)
    requires WellFormed(s) && Inv(s) && Means(s) && CanGo(s, t)
    requires Top(s.threads[t].stack).Job? || Top(s.threads[t].stack).Spread?
    ensures GoesOn(s, Go(s, t), t)
  {
    hide Inv, WellFormed, Means, Go, GoesOn, EndedMeans, StackMeans, Within, ItemsKept, ShapeOk, Narrows, Plain;
    StartsFrom(s, t);
    OneStage(s, t);
    StagesGo(s, t, s.stages[ActsOn(s, t)].ended);
    var frames := JobFrames(s, t);
    NotOnHelp(s, t);
    PlainStays(s.stages, Go(s, t).stages, s.threads[t].stack, frames);
    GoesOnIs(s, t);
  }

  lemma TopMeans(stages: seq<Stage>, stack: seq<Frame>)
    requires stack != [] && StackMeans(stages, stack)
    ensures HelpMeans(stages, stack, |stack| - 1)
  {
  }

  lemma NotOnHelp(s: State, t: nat)
    requires t < |s.threads| && |s.threads[t].stack| > 0 && ShapeOk(s.threads[t], s.stages, |s.threads[t].stack| - 1)
    requires !Top(s.threads[t].stack).Code?
    ensures |s.threads[t].stack| > 1 ==> !s.threads[t].stack[|s.threads[t].stack| - 2].Help?
  {
  }

  lemma GoesOnIs(s: State, t: nat)
    requires WellFormed(s) && CanGo(s, t) && ItemsKept(s.stages, Go(s, t).stages)
    requires forall f :: 0 <= f < |Go(s, t).stages| ==> EndedMeans(Go(s, t).stages[f])
    requires StackMeans(Go(s, t).stages, Go(s, t).threads[t].stack)
    requires Narrows(s.stages, s.threads[t].stack, Go(s, t).stages, Go(s, t).threads[t].stack)
    ensures GoesOn(s, Go(s, t), t)
  {
  }

  lemma GoGoes(s: State, t: nat)
    requires WellFormed(s) && Inv(s) && Means(s) && CanGo(s, t)
    ensures GoesOn(s, Go(s, t), t)
  {
    hide Inv, Means, Go, GoesOn;
    match Top(s.threads[t].stack)
    case Code(_) => CodeGoes(s, t);
    case Run(_, _, pc) => if pc.Returning? { ReturnGoes(s, t); } else { RunGoes(s, t); }
    case Help(_, _) => HelpGoes(s, t);
    case _ => JobGoes(s, t);
  }

  /** A step of one thread leaves the others' stacks alone. */
  lemma OthersStay(s: State, t: nat)
    requires WellFormed(s) && CanGo(s, t)
    ensures |Go(s, t).threads| == |s.threads|
    ensures forall u :: 0 <= u < |s.threads| && u != t ==> Go(s, t).threads[u] == s.threads[u]
  {
  }

  // ----- runs -----

  /** Every thread's code goes on as it may. */
  ghost predicate AllNarrow(s: State, s': State) {
    |s.threads| == |s'.threads|
    && forall t :: 0 <= t < |s.threads| && s.threads[t].stack != [] ==>
         Narrows(s.stages, s.threads[t].stack, s'.stages, s'.threads[t].stack)
  }

  lemma StepMeans(s: State, s': State)
    requires Inv(s) && Means(s) && StepOrWake(s, s')
    ensures Means(s') && AllNarrow(s, s')
  {
    hide Inv, WellFormed, Go, HelpMeans, Narrows, EndedMeans, Take, WakeUnasked;
    InvWellFormed(s);
    if t :| CanGo(s, t) && s' == Go(s, t) {
      GoGoes(s, t);
      OthersStay(s, t);
      forall u | 0 <= u < |s.threads| && u != t
        ensures StackMeans(s'.stages, s'.threads[u].stack)
        ensures Narrows(s.stages, s.threads[u].stack, s'.stages, s'.threads[u].stack)
      {
        StagesOf(s, u);
        OthersMean(s.stages, s'.stages, s.threads[u].stack);
      }
    } else if t, k :| CanTake(s, t, k) && s' == Take(s, t, k) {
      TakeMeans(s, t, k);
    } else {
      var t :| CanWakeUnasked(s, t) && s' == WakeUnasked(s, t);
      WakeMeans(s, t);
    }
  }

  lemma StagesOf(s: State, u: nat)
    requires WellFormed(s) && u < |s.threads|
    ensures Within(s.stages, s.threads[u].stack)
  {
  }

  lemma TakeMeans(s: State, t: nat, k: nat)
    requires WellFormed(s) && Means(s) && CanTake(s, t, k)
    ensures Means(Take(s, t, k)) && AllNarrow(s, Take(s, t, k))
  {
    hide MayEnd;
  }

  lemma WakeMeans(s: State, t: nat)
    requires WellFormed(s) && Inv(s) && Means(s) && CanWakeUnasked(s, t)
    ensures Means(WakeUnasked(s, t)) && AllNarrow(s, WakeUnasked(s, t))
  {
    hide Inv, MayEnd;
    StartsFrom(s, t);
    var (stack, s') := (s.threads[t].stack, WakeUnasked(s, t));
    Stays(s.stages, s'.stages, stack, [Top(stack).(run := WaitLock)]);
  }

  lemma InitMeans(s: State)
    requires Init(s)
    ensures Means(s)
  {
  }

  lemma {:induction false} RunMeans(run: seq<State>)
    requires IsRun(run)
    ensures Inv(run[|run| - 1]) && Means(run[|run| - 1])
  {
    hide Inv, Means, StepOrWake, Init, AllNarrow;
    RunKeeps(run);
    if |run| == 1 {
      InitMeans(run[0]);
    } else {
      var before := run[..|run| - 1];
      RunMeans(before);
      assert before[|before| - 1] == run[|run| - 2];
      StepMeans(run[|run| - 2], run[|run| - 1]);
    }
  }

  /** In every state of every run, each item that ended did so as its code may. */
  lemma EndedAsTheyMay(run: seq<State>, f: nat, i: nat)
    requires IsRun(run) && f < |run[|run| - 1].stages| && i in run[|run| - 1].stages[f].ended
    ensures var stage := run[|run| - 1].stages[f]; i < |stage.items| && MayEnd(stage.items[i], stage.ended[i])
  {
    RunMeans(run);
    assert EndedMeans(run[|run| - 1].stages[f]);
  }

  /** A fork that returns does so as it may: it raises the panic of an item of its own, and raises none only where
      every item may end, and did end, without one. */
  lemma ReturnsAsItMay(run: seq<State>, t: nat)
    requires IsRun(run)
    requires WellFormed(run[|run| - 1]) && CanGo(run[|run| - 1], t)
    requires Top(run[|run| - 1].threads[t].stack).Run? && Top(run[|run| - 1].threads[t].stack).run.Returning?
    ensures var s := run[|run| - 1];
            var stage := s.stages[Top(s.threads[t].stack).stage];
            && (stage.panic.Some? ==> exists i :: 0 <= i < |stage.items| && MayEnd(stage.items[i], stage.panic))
            && (stage.panic.None? ==> forall i :: 0 <= i < |stage.items| ==>
                                        i in stage.ended && stage.ended[i] == None && MayEnd(stage.items[i], None))
  {
    var s := run[|run| - 1];
    hide Inv, WellFormed, Means, MayEnd;
    RunMeans(run);
    ActsWithin(s, t);
    ReturnsWith(s, t);
    var f := Top(s.threads[t].stack).stage;
    var stage := s.stages[f];
    EndedOf(s, f);
    if stage.panic.Some? {
      assert stage.kept[0].0 in stage.ended;
    } else {
      forall i | 0 <= i < |stage.items| ensures i in stage.ended && stage.ended[i] == None {
        assert i in stage.ended.Keys;
      }
    }
  }

  lemma EndedOf(s: State, f: nat)
    requires Means(s) && f < |s.stages|
    ensures EndedMeans(s.stages[f])
  {
  }

  /** A caller's code, from the step that starts it: while it is in progress it may still end only as it might at the
      start, and so it ends as its code may. */
  lemma {:induction false} CallEndsAsItMay(run: seq<State>, i: nat, t: nat, k: nat, outcome: Option<Panic>)
    requires IsRun(run) && i + 1 < |run| && WellFormed(run[i]) && CanTake(run[i], t, k)
    requires run[i].pending[k].Root? && run[i + 1] == Take(run[i], t, k)
    requires forall j :: i < j < |run| ==> t < |run[j].threads| && run[j].threads[t].stack != []
    ensures run[i + 1].threads[t].stack == [Code(run[i].pending[k].body)]
    ensures var s := run[|run| - 1];
            s.threads[t].stack[0].Code?
            && (Ends(s.stages, s.threads[t].stack, 0, outcome) ==> MayEnd(run[i].pending[k].body, outcome))
    decreases |run|
  {
    hide StepOrWake, Inv, Means, Init, WellFormed;
    if |run| > i + 2 {
      var before := run[..|run| - 1];
      CallEndsAsItMay(before, i, t, k, outcome);
      RunMeans(before);
      var (s, s') := (before[|before| - 1], run[|run| - 1]);
      assert StepOrWake(run[|run| - 2], run[|run| - 1]);
      StepMeans(s, s');
      assert Narrows(s.stages, s.threads[t].stack, s'.stages, s'.threads[t].stack);
    }
  }
}
