/**
 What holds over whole runs of the cache: the budget, one load at a time for each slot, one
 kept value for every later caller, and a count of exactly the bytes kept and reserved.
 */
module CacheSafety {
  import opened Wrappers
  import opened Words
  import opened Cache

  /** The states of a run from an empty cache. */
  ghost predicate Run(run: seq<State>) {
    && run != []
    && var (before, last) := (run[..|run| - 1], run[|run| - 1]);
       if before == [] then Init(last) else Run(before) && Step(before[|before| - 1], last)
  }

  /** Any number of threads may start with an empty cache. */
  lemma RunStarts(budget: Word, threads: nat)
    ensures Run([State(budget, 0, [], seq(threads, _ => Idle))])
  {
    hide Next;
    var s := State(budget, 0, [], seq(threads, _ => Idle));
    assert [s][..0] == [] && Init(s);
  }

  /** A run goes on by whatever a thread can do. */
  lemma RunGoesOn(run: seq<State>, t: nat, action: Action)
    requires Run(run) && Indexed(run[|run| - 1]) && Next(run[|run| - 1], t, action).Some?
    ensures Run(run + [Next(run[|run| - 1], t, action).value])
  {
    hide Next, Init;
    var more := run + [Next(run[|run| - 1], t, action).value];
    assert more[..|more| - 1] == run;
    assert Step(run[|run| - 1], more[|more| - 1]);
  }

  lemma {:induction false} RunKeeps(run: seq<State>, i: nat)
    requires Run(run) && i < |run|
    ensures Inv(run[i])
  {
    hide Inv, Next;
    var before := run[..|run| - 1];
    if before == [] {
      InitHolds(run[0]);
    } else if i < |before| {
      RunKeeps(before, i);
    } else {
      var s := before[|before| - 1];
      RunKeeps(before, |before| - 1);
      var t: nat, action :| Next(s, t, action) == Some(run[i]);
      StepKeeps(s, t, action);
    }
  }

  /** However calls and clears interleave, the cache never counts more than its budget. */
  lemma WithinBudget(run: seq<State>, i: nat)
    requires Run(run) && i < |run|
    ensures run[i].used <= run[i].budget
  {
    RunKeeps(run, i);
  }

  /** No two threads load one slot, and none loads a slot that holds a value. */
  lemma OneLoad(run: seq<State>, i: nat, t: nat, u: nat)
    requires Run(run) && i < |run| && t < |run[i].threads| && u < |run[i].threads|
    requires run[i].threads[t].Loading? && run[i].threads[u].Loading?
             && run[i].threads[t].slot == run[i].threads[u].slot
    ensures t == u
    ensures run[i].threads[t].slot < |run[i].slots| && run[i].slots[run[i].threads[t].slot].held.None?
  {
    RunKeeps(run, i);
  }

  /** While any thread is inside a call, some thread can go on. */
  lemma NeverStuck(s: State, t: nat)
    requires Inv(s) && t < |s.threads| && s.threads[t] != Idle
    ensures exists u: nat, action :: Next(s, u, action).Some?
  {
    var thread := s.threads[t];
    if thread.Waiting? && s.slots[thread.slot].holder.Some? {
      var u := s.slots[thread.slot].holder.value;
      CanGo(s, u);
    } else {
      CanGo(s, t);
    }
  }

  lemma CanGo(s: State, t: nat)
    requires Indexed(s) && t < |s.threads| && s.threads[t] != Idle
    requires s.threads[t].Waiting? ==> s.slots[s.threads[t].slot].holder.None?
    ensures exists u: nat, action :: Next(s, u, action).Some?
  {
    hide SlotOf, Dropped, Settled;
    var action := match s.threads[t]
      case Waiting(_) => Lock
      case Locked(_) => Look(None)
      case Reserving(_, _, _) => Reserve(false)
      case Loading(_, _) => Load(None)
      case Settling(_, _, _, _) => Settle(false)
      case Storing(_, _, _) => Store
      case Done(_, _) => Return
      case _ => Clear;
    assert Next(s, t, action).Some?;
  }

  // ----- the value every later caller gets -----

  ghost predicate Holds(s: State, i: nat, value: Value) {
    i < |s.slots| && s.slots[i].held == Some(value)
  }

  /** A slot's value stays, and a thread inside the slot that has not looked yet, or looked since, has it. */
  ghost predicate Serves(s: State, i: nat, value: Value, t: nat) {
    && Holds(s, i, value) && t < |s.threads|
    && match s.threads[t]
       case Waiting(slot) => slot == i
       case Locked(slot) => slot == i
       case Done(slot, outcome) => slot == i && outcome == Got(value)
       case _ => false
  }

  lemma HeldStays(s: State, t: nat, action: Action, i: nat, value: Value)
    requires Inv(s) && Next(s, t, action).Some? && Holds(s, i, value)
    ensures Holds(Next(s, t, action).value, i, value)
  {
    hide SlotOf, Settled;
  }

  lemma ServesStays(s: State, u: nat, action: Action, i: nat, value: Value, t: nat)
    requires Inv(s) && Next(s, u, action).Some? && Serves(s, i, value, t)
    requires Next(s, u, action).value.threads[t].InSlot()
    ensures Serves(Next(s, u, action).value, i, value, t)
  {
    hide SlotOf, Settled;
    HeldStays(s, u, action, i, value);
  }

  /** From the moment a slot holds a value, every caller that was waiting for it or comes to it later, and whose call
      ends in it, gets that value. */
  lemma {:induction false} LaterCallersGet(run: seq<State>, from: nat, i: nat, value: Value, t: nat)
    requires Run(run) && from < |run| && Holds(run[from], i, value)
    requires t < |run[from].threads| && run[from].threads[t] == Waiting(i)
    requires forall k :: from <= k < |run| ==> t < |run[k].threads| && run[k].threads[t].InSlot()
    ensures Serves(run[|run| - 1], i, value, t)
  {
    hide Inv, Next;
    if from < |run| - 1 {
      var before := run[..|run| - 1];
      var s := before[|before| - 1];
      LaterCallersGet(before, from, i, value, t);
      RunKeeps(run, |run| - 2);
      var u: nat, action :| Next(s, u, action) == Some(run[|run| - 1]);
      ServesStays(s, u, action, i, value, t);
    }
  }

  /** A key finds the same slot until a clear drops it. */
  lemma SameSlot(s: State, t: nat, key: Key, i: nat)
    requires Inv(s) && Lives(s.slots, i, key) && t < |s.threads| && s.threads[t] == Idle
    ensures Next(s, t, Find(key)).Some? && Next(s, t, Find(key)).value.threads[t] == Waiting(i)
  {
    SlotOfFinds(s.slots, key, 0);
    hide SlotOf;
  }

  // ----- the count, while no clear overlaps a call -----

  function SlotBytes(slot: Slot): nat {
    if slot.live && slot.held.Some? then slot.held.value.size else 0
  }

  /** The bytes of the values kept. */
  function KeptBytes(slots: seq<Slot>): nat {
    if slots == [] then 0 else KeptBytes(slots[..|slots| - 1]) + SlotBytes(slots[|slots| - 1])
  }

  /** The bytes a thread has counted and not yet kept or released. */
  function ThreadBytes(thread: Thread): nat {
    match thread
    case Loading(_, most) => most
    case Settling(_, most, _, _) => most
    case Storing(_, loaded, taken) => if taken && loaded.Some? then loaded.value.size else 0
    case _ => 0
  }

  function ReservedBytes(threads: seq<Thread>): nat {
    if threads == [] then 0 else ReservedBytes(threads[..|threads| - 1]) + ThreadBytes(threads[|threads| - 1])
  }

  lemma {:induction false} KeptUpdate(slots: seq<Slot>, i: nat, slot: Slot)
    requires i < |slots|
    ensures KeptBytes(slots[i := slot]) == KeptBytes(slots) - SlotBytes(slots[i]) + SlotBytes(slot)
  {
    var (before, now) := (slots[..|slots| - 1], slots[i := slot]);
    if i < |before| {
      KeptUpdate(before, i, slot);
      assert now[..|slots| - 1] == before[i := slot];
    } else {
      assert now[..|slots| - 1] == before;
    }
  }

  lemma {:induction false} ReservedUpdate(threads: seq<Thread>, t: nat, thread: Thread)
    requires t < |threads|
    ensures ReservedBytes(threads[t := thread])
            == ReservedBytes(threads) - ThreadBytes(threads[t]) + ThreadBytes(thread)
  {
    var (before, now) := (threads[..|threads| - 1], threads[t := thread]);
    if t < |before| {
      ReservedUpdate(before, t, thread);
      assert now[..|threads| - 1] == before[t := thread];
    } else {
      assert now[..|threads| - 1] == before;
    }
  }

  lemma {:induction false} ReservedAtLeast(threads: seq<Thread>, t: nat)
    requires t < |threads|
    ensures ThreadBytes(threads[t]) <= ReservedBytes(threads)
  {
    if t < |threads| - 1 {
      ReservedAtLeast(threads[..|threads| - 1], t);
    }
  }

  lemma {:induction false} NothingReserved(threads: seq<Thread>)
    requires forall t :: 0 <= t < |threads| ==> ThreadBytes(threads[t]) == 0
    ensures ReservedBytes(threads) == 0
  {
    if threads != [] {
      NothingReserved(threads[..|threads| - 1]);
    }
  }

  lemma {:induction false} NothingKept(slots: seq<Slot>)
    requires forall i :: 0 <= i < |slots| ==> !slots[i].live
    ensures KeptBytes(slots) == 0
  {
    if slots != [] {
      NothingKept(slots[..|slots| - 1]);
    }
  }

  predicate Resting(thread: Thread) {
    thread.Idle? || thread.Done?
  }

  /** No thread but `t` is inside a call or a clear. */
  ghost predicate Alone(s: State, t: nat) {
    forall u :: 0 <= u < |s.threads| && u != t ==> Resting(s.threads[u])
  }

  /** A step that overlaps no clear with a call: a clear starts and runs alone. */
  ghost predicate Quiet(s: State, t: nat, action: Action)
    requires t < |s.threads|
  {
    && (action.Clear? ==> Alone(s, t))
    && (forall u :: 0 <= u < |s.threads| && s.threads[u].Clearing? ==> u == t)
  }

  /** Nothing is being cleared. */
  ghost predicate NothingClears(s: State) {
    forall u :: 0 <= u < |s.threads| ==> !s.threads[u].Clearing?
  }

  /** The slots of one map are all dropped. */
  ghost predicate NoneLive(s: State, column: bool) {
    forall i :: 0 <= i < |s.slots| && s.slots[i].key.column == column ==> !s.slots[i].live
  }

  /** The count is the bytes kept and reserved; a thread in a call is in a live slot; a clear under way is alone. */
  ghost predicate Accounted(s: State) {
    && Inv(s)
    && (NothingClears(s) ==> s.used == KeptBytes(s.slots) + ReservedBytes(s.threads))
    && (forall t :: 0 <= t < |s.threads| && (s.threads[t].Waiting? || s.threads[t].InLock()) ==>
          s.slots[s.threads[t].slot].live)
    && (forall t :: 0 <= t < |s.threads| && s.threads[t].Clearing? ==>
          && Alone(s, t) && 1 <= s.threads[t].cleared <= 2
          && NoneLive(s, false) && (s.threads[t].cleared == 2 ==> NoneLive(s, true)))
  }

  /** What a step inside a slot adds to the count is what it adds to the bytes kept and reserved. */
  lemma BytesBalance(s: State, t: nat, action: Action)
    requires Accounted(s) && NothingClears(s) && s.budget < MAX_WORD
    requires t < |s.threads| && s.threads[t].InSlot() && Next(s, t, action).Some?
    ensures var (next, i) := (Next(s, t, action).value, s.threads[t].slot);
            && |next.slots| == |s.slots| && |next.threads| == |s.threads|
            && next.used + SlotBytes(s.slots[i]) + ThreadBytes(s.threads[t])
               == s.used + SlotBytes(next.slots[i]) + ThreadBytes(next.threads[t])
  {
    hide SlotOf, Dropped, KeptBytes, ReservedBytes, HoldersMatch, OneSlotEach;
    ReservedAtLeast(s.threads, t);
  }

  lemma LocalAccount(s: State, t: nat, action: Action)
    requires Accounted(s) && s.budget < MAX_WORD && t < |s.threads| && s.threads[t].InSlot()
    requires Next(s, t, action).Some? && Quiet(s, t, action)
    ensures Accounted(Next(s, t, action).value)
  {
    hide SlotOf, Dropped, KeptBytes, ReservedBytes;
    var (next, i) := (Next(s, t, action).value, s.threads[t].slot);
    StepKeeps(s, t, action);
    SlotAfter(s, t, action);
    assert NothingClears(s);
    BytesBalance(s, t, action);
    hide Next, Inv;
    KeptUpdate(s.slots, i, next.slots[i]);
    ReservedUpdate(s.threads, t, next.threads[t]);
  }

  lemma FindAccount(s: State, t: nat, key: Key)
    requires Accounted(s) && t < |s.threads| && Next(s, t, Find(key)).Some? && Quiet(s, t, Find(key))
    ensures Accounted(Next(s, t, Find(key)).value)
  {
    hide KeptBytes, ReservedBytes;
    var next := Next(s, t, Find(key)).value;
    StepKeeps(s, t, Find(key));
    hide Inv, SlotOf;
    ReservedUpdate(s.threads, t, next.threads[t]);
    NewSlot(s.slots, Slot(key, true, None, None));
  }

  lemma NewSlot(slots: seq<Slot>, slot: Slot)
    ensures KeptBytes(slots + [slot]) == KeptBytes(slots) + SlotBytes(slot)
  {
    assert (slots + [slot])[..|slots|] == slots;
  }

  lemma ClearAccount(s: State, t: nat)
    requires Accounted(s) && t < |s.threads| && Next(s, t, Clear).Some? && Quiet(s, t, Clear)
    ensures Accounted(Next(s, t, Clear).value)
  {
    StepKeeps(s, t, Clear);
    hide Inv, KeptBytes, ReservedBytes;
    if s.threads[t].Clearing? && s.threads[t].cleared == 2 {
      ClearEnds(s, t);
    } else {
      ClearGoesOn(s, t);
    }
  }

  lemma ClearGoesOn(s: State, t: nat)
    requires Inv(s) && Accounted(s) && t < |s.threads| && Next(s, t, Clear).Some? && Quiet(s, t, Clear)
             && Inv(Next(s, t, Clear).value)
    requires !(s.threads[t].Clearing? && s.threads[t].cleared == 2)
    ensures Accounted(Next(s, t, Clear).value)
  {
    var next := Next(s, t, Clear).value;
    var cleared := if s.threads[t].Idle? then 1 else 2;
    assert next.threads == s.threads[t := Clearing(cleared)];
    assert next.slots == Dropped(s.slots, cleared == 2);
    assert cleared == 2 ==> NoneLive(s, false);
    assert Alone(s, t);
    hide Inv, Next, KeptBytes, ReservedBytes, Accounted;
    OnlyClearing(next, t, cleared);
  }

  lemma OnlyClearing(s: State, t: nat, cleared: nat)
    requires Inv(s) && t < |s.threads| && s.threads[t] == Clearing(cleared) && 1 <= cleared <= 2 && Alone(s, t)
    requires NoneLive(s, false) && (cleared == 2 ==> NoneLive(s, true))
    ensures Accounted(s)
  {
    hide KeptBytes, ReservedBytes, HoldersMatch, EmptyWhileLoading, OneSlotEach;
  }

  lemma ClearEnds(s: State, t: nat)
    requires Inv(s) && Accounted(s) && t < |s.threads| && s.threads[t] == Clearing(2) && Quiet(s, t, Clear)
             && Inv(Next(s, t, Clear).value)
    ensures Accounted(Next(s, t, Clear).value)
  {
    assert Indexed(s);
    hide Inv, KeptBytes, ReservedBytes;
    var next := Next(s, t, Clear).value;
    assert forall u :: 0 <= u < |s.threads| && u != t ==> next.threads[u] == s.threads[u] && Resting(next.threads[u]);
    assert forall i :: 0 <= i < |s.slots| ==> !s.slots[i].live;
    NothingKept(next.slots);
    NothingReserved(next.threads);
  }

  /** Where no clear overlaps a call, the count is exactly the bytes kept and those reserved by loads in flight. */
  lemma AccountKept(s: State, t: nat, action: Action)
    requires Accounted(s) && s.budget < MAX_WORD && t < |s.threads| && Next(s, t, action).Some? && Quiet(s, t, action)
    ensures Accounted(Next(s, t, action).value)
  {
    if s.threads[t].InSlot() {
      LocalAccount(s, t, action);
    } else if action.Find? {
      FindAccount(s, t, action.key);
    } else {
      ClearAccount(s, t);
    }
  }

  /** The states of a run in which no clear overlaps a call. */
  ghost predicate QuietRun(run: seq<State>) {
    && run != []
    && var (before, last) := (run[..|run| - 1], run[|run| - 1]);
       if before == [] then Init(last) else QuietRun(before) && QuietStep(before[|before| - 1], last)
  }

  ghost predicate QuietStep(s: State, next: State) {
    Indexed(s) && exists t: nat, action :: t < |s.threads| && Quiet(s, t, action) && Next(s, t, action) == Some(next)
  }

  lemma {:induction false} QuietRunCounts(run: seq<State>)
    requires QuietRun(run) && run[0].budget < MAX_WORD
    ensures Accounted(run[|run| - 1]) && run[|run| - 1].budget == run[0].budget
  {
    hide Inv, Next, Accounted, Quiet;
    var before := run[..|run| - 1];
    if before == [] {
      InitAccounted(run[0]);
    } else {
      var s := before[|before| - 1];
      QuietRunCounts(before);
      var t: nat, action :| t < |s.threads| && Quiet(s, t, action) && Next(s, t, action) == Some(run[|run| - 1]);
      AccountedInv(s);
      StepKeeps(s, t, action);
      AccountKept(s, t, action);
    }
  }

  lemma AccountedInv(s: State)
    requires Accounted(s)
    ensures Inv(s)
  {
  }

  lemma InitAccounted(s: State)
    requires Init(s)
    ensures Accounted(s)
  {
    InitHolds(s);
    NothingReserved(s.threads);
  }

  /** Settling leaves the count right unless the count saturates, which takes a budget of every byte a word counts. */
  lemma SettlingCounts(s: State, t: nat, slot: nat, most: Word, loaded: Option<Value>, seen: Word)
    requires Accounted(s) && NothingClears(s) && t < |s.threads|
    requires s.threads[t] == Settling(slot, most, loaded, seen) && s.used == seen
    ensures s.used >= most
    ensures var next := Next(s, t, Action.Settle(false)).value;
            next.used == KeptBytes(next.slots) + ReservedBytes(next.threads)
            <==> s.budget < MAX_WORD || s.used - most + (if loaded.Some? then loaded.value.size else 0) <= MAX_WORD
  {
    hide KeptBytes, ReservedBytes, SlotOf, HoldersMatch, OneSlotEach;
    ReservedAtLeast(s.threads, t);
    var next := Next(s, t, Action.Settle(false)).value;
    ReservedUpdate(s.threads, t, next.threads[t]);
  }
}
