/**
 The column cache: threads that look up a slot, wait for its lock, and, where it is empty,
 reserve bytes against the budget, load, and settle what the value takes; and threads that
 clear everything in three steps. Each atomic action is one step, and the compare-and-swap
 loops may lose a race or fail for no reason.
 */
module Cache {
  import opened Wrappers
  import opened Words

  /** What a slot is for: a window's rows or a column, of some row group and block range. */
  datatype Key = Key(column: bool, id: nat)

  datatype Value = Value(id: nat, size: Word)

  /** `live` where the map holds the slot; a cleared one lives on with the threads that found it. */
  datatype Slot = Slot(key: Key, live: bool, holder: Option<nat>, held: Option<Value>)

  datatype Outcome = Got(value: Value) | NoRoom | Failed

  /** Where a thread is: in the lock from `Locked` to `Storing`. `seen` is the count it last read. */
  datatype Thread =
    | Idle
    | Waiting(slot: nat)
    | Locked(slot: nat)
    | Reserving(slot: nat, most: Word, seen: Word)
    | Loading(slot: nat, most: Word)
    | Settling(slot: nat, most: Word, loaded: Option<Value>, seen: Word)
    | Storing(slot: nat, loaded: Option<Value>, taken: bool)
    | Done(slot: nat, outcome: Outcome)
    | Clearing(cleared: nat)
  {
    predicate InLock() {
      Locked? || Empty()
    }

    /** Past the look at the slot, which was empty. */
    predicate Empty() {
      Reserving? || Loading? || Settling? || Storing?
    }

    predicate InSlot() {
      Waiting? || InLock() || Done?
    }
  }

  datatype State = State(budget: Word, used: Word, slots: seq<Slot>, threads: seq<Thread>)

  /** What a thread does next, and what comes from outside: the key it asks for, the most the value may take if
      known, what loading gave, and whether a swap fails although nothing changed. */
  datatype Action =
    | Find(key: Key)
    | Lock
    | Look(most: Option<Word>)
    | Reserve(spurious: bool)
    | Load(loaded: Option<Value>)
    | Settle(spurious: bool)
    | Store
    | Return
    | Clear

  function Size(loaded: Option<Value>): Word {
    if loaded.Some? then loaded.value.size else 0
  }

  /** What settling makes of the count: what is left without the reservation, and the value's bytes if they fit. */
  function Settled(budget: Word, used: Word, reserved: Word, actual: Word): (bool, Word) {
    var rest: Word := if used > reserved then used - reserved else 0;
    var total := SaturatingAdd(rest, actual);
    (total <= budget, if total <= budget then total else rest)
  }

  predicate Lives(slots: seq<Slot>, i: nat, key: Key) {
    i < |slots| && slots[i].live && slots[i].key == key
  }

  /** The place of the live slot of `key`, or of the next new one. */
  function SlotOf(slots: seq<Slot>, key: Key, from: nat): (i: nat)
    requires from <= |slots|
    ensures from <= i <= |slots|
    ensures i < |slots| ==> Lives(slots, i, key)
    decreases |slots| - from
  {
    if from == |slots| || Lives(slots, from, key) then from else SlotOf(slots, key, from + 1)
  }

  function Go(s: State, t: nat, thread: Thread): State
    requires t < |s.threads|
  {
    s.(threads := s.threads[t := thread])
  }

  function Release(s: State, slot: nat): State
    requires slot < |s.slots|
  {
    s.(slots := s.slots[slot := s.slots[slot].(holder := None)])
  }

  /** The slots of one map, dropped from it. */
  function Dropped(slots: seq<Slot>, column: bool): (dropped: seq<Slot>)
    ensures |dropped| == |slots|
  {
    seq(|slots|, i requires 0 <= i < |slots| => if slots[i].key.column == column then slots[i].(live := false)
                                                else slots[i])
  }

  predicate Indexed(s: State) {
    forall t :: 0 <= t < |s.threads| && s.threads[t].InSlot() ==> s.threads[t].slot < |s.slots|
  }

  /** The state after thread `t` does `action`, where it can. */
  function Next(s: State, t: nat, action: Action): Option<State>
    requires Indexed(s)
  {
    if t >= |s.threads| then None
    else
      match (s.threads[t], action)
      case (Idle, Find(key)) =>
        var slot := SlotOf(s.slots, key, 0);
        var slots := if slot < |s.slots| then s.slots else s.slots + [Slot(key, true, None, None)];
        Some(Go(s.(slots := slots), t, Waiting(slot)))
      case (Waiting(slot), Lock) =>
        if s.slots[slot].holder.Some? then None
        else Some(Go(s.(slots := s.slots[slot := s.slots[slot].(holder := Some(t))]), t, Locked(slot)))
      case (Locked(slot), Look(most)) =>
        if s.slots[slot].held.Some? then Some(Go(Release(s, slot), t, Done(slot, Got(s.slots[slot].held.value))))
        else if most.None? then Some(Go(Release(s, slot), t, Done(slot, NoRoom)))
        else Some(Go(s, t, Reserving(slot, most.value, s.used)))
      case (Reserving(slot, most, seen), Reserve(spurious)) =>
        if seen + most > MAX_WORD || seen + most > s.budget then Some(Go(Release(s, slot), t, Done(slot, NoRoom)))
        else if s.used == seen && !spurious then Some(Go(s.(used := seen + most), t, Loading(slot, most)))
        else Some(Go(s, t, Reserving(slot, most, s.used)))
      case (Loading(slot, most), Load(loaded)) =>
        Some(Go(s, t, Settling(slot, most, loaded, s.used)))
      case (Settling(slot, most, loaded, seen), Settle(spurious)) =>
        if s.used == seen && !spurious then
          var (taken, total) := Settled(s.budget, seen, most, Size(loaded));
          Some(Go(s.(used := total), t, Storing(slot, loaded, taken)))
        else Some(Go(s, t, Settling(slot, most, loaded, s.used)))
      case (Storing(slot, loaded, taken), Store) =>
        var held := if loaded.Some? && taken then loaded else s.slots[slot].held;
        var outcome := if loaded.Some? then Got(loaded.value) else Failed;
        Some(Go(s.(slots := s.slots[slot := s.slots[slot].(holder := None, held := held)]), t, Done(slot, outcome)))
      case (Done(_, _), Return) => Some(Go(s, t, Idle))
      case (Idle, Clear) => Some(Go(s.(slots := Dropped(s.slots, false)), t, Clearing(1)))
      case (Clearing(cleared), Clear) =>
        if cleared == 1 then Some(Go(s.(slots := Dropped(s.slots, true)), t, Clearing(2)))
        else Some(Go(s.(used := 0), t, Idle))
      case _ => None
  }

  ghost predicate Step(s: State, next: State) {
    Indexed(s) && exists t: nat, action :: Next(s, t, action) == Some(next)
  }

  ghost predicate Init(s: State) {
    s.used == 0 && s.slots == [] && forall t :: 0 <= t < |s.threads| ==> s.threads[t] == Idle
  }

  // ----- what every step keeps -----

  /** The lock's holder is the one thread in it. */
  ghost predicate HoldersMatch(s: State) {
    && (forall t :: 0 <= t < |s.threads| && s.threads[t].InLock() ==>
          s.threads[t].slot < |s.slots| && s.slots[s.threads[t].slot].holder == Some(t))
    && (forall i :: 0 <= i < |s.slots| && s.slots[i].holder.Some? ==>
          var t := s.slots[i].holder.value;
          t < |s.threads| && s.threads[t].InLock() && s.threads[t].slot == i)
  }

  /** A slot is empty while some thread is loading it. */
  ghost predicate EmptyWhileLoading(s: State) {
    forall t :: 0 <= t < |s.threads| && s.threads[t].Empty() ==>
      s.threads[t].slot < |s.slots| && s.slots[s.threads[t].slot].held.None?
  }

  /** No key has two live slots. */
  ghost predicate OneSlotEach(s: State) {
    forall i, j :: 0 <= i < j < |s.slots| && s.slots[i].live && s.slots[j].live ==> s.slots[i].key != s.slots[j].key
  }

  ghost predicate Inv(s: State) {
    s.used <= s.budget && Indexed(s) && HoldersMatch(s) && EmptyWhileLoading(s) && OneSlotEach(s)
  }

  lemma {:induction false} SlotOfFinds(slots: seq<Slot>, key: Key, from: nat)
    requires from <= |slots|
    ensures forall i :: from <= i < SlotOf(slots, key, from) ==> !Lives(slots, i, key)
    decreases |slots| - from
  {
    if from < |slots| && !Lives(slots, from, key) {
      SlotOfFinds(slots, key, from + 1);
    }
  }

  lemma InitHolds(s: State)
    requires Init(s)
    ensures Inv(s)
  {
  }

  lemma BudgetKept(s: State, t: nat, action: Action)
    requires Indexed(s) && s.used <= s.budget && Next(s, t, action).Some?
    ensures Next(s, t, action).value.used <= s.budget == Next(s, t, action).value.budget
  {
    hide SlotOf, Dropped;
  }

  lemma IndexedKept(s: State, t: nat, action: Action)
    requires Indexed(s) && Next(s, t, action).Some?
    ensures Indexed(Next(s, t, action).value) && |Next(s, t, action).value.slots| >= |s.slots|
  {
    hide SlotOf, Settled;
  }

  /** One thread moves and at most its own slot changes: in the lock after exactly when the slot says so. */
  lemma HoldersLocal(s: State, next: State, t: nat, i: nat)
    requires HoldersMatch(s) && t < |s.threads| && i < |s.slots|
    requires |next.threads| == |s.threads| && next.threads == s.threads[t := next.threads[t]]
    requires |next.slots| == |s.slots| && next.slots == s.slots[i := next.slots[i]]
    requires s.threads[t].InLock() ==> s.threads[t].slot == i
    requires s.slots[i].holder == None || s.slots[i].holder == Some(t)
    requires if next.threads[t].InLock() then next.threads[t].slot == i && next.slots[i].holder == Some(t)
             else next.slots[i].holder == None
    ensures HoldersMatch(next)
  {
  }

  lemma HoldersKept(s: State, t: nat, action: Action)
    requires Indexed(s) && HoldersMatch(s) && Next(s, t, action).Some?
    ensures HoldersMatch(Next(s, t, action).value)
  {
    if s.threads[t].InSlot() {
      SlotAfter(s, t, action);
      hide Next, HoldersMatch;
      if s.threads[t].Done? {
        IdleHolds(s, Next(s, t, action).value, t);
      } else {
        HoldersLocal(s, Next(s, t, action).value, t, s.threads[t].slot);
      }
    } else {
      OutsideHolds(s, t, action);
    }
  }

  lemma OutsideHolds(s: State, t: nat, action: Action)
    requires Indexed(s) && HoldersMatch(s) && Next(s, t, action).Some? && !s.threads[t].InSlot()
    ensures HoldersMatch(Next(s, t, action).value)
  {
    hide SlotOf, Settled;
  }

  lemma IdleHolds(s: State, next: State, t: nat)
    requires HoldersMatch(s) && t < |s.threads| && s.threads[t].Done?
    requires next.threads == s.threads[t := Idle] && next.slots == s.slots
    ensures HoldersMatch(next)
  {
  }

  /** What a step inside a slot changes: the thread, its slot, and the slot's holder as the thread enters or leaves the
      lock. */
  lemma SlotAfter(s: State, t: nat, action: Action)
    requires Indexed(s) && HoldersMatch(s) && Next(s, t, action).Some? && s.threads[t].InSlot()
    ensures var (next, i) := (Next(s, t, action).value, s.threads[t].slot);
            && |next.threads| == |s.threads| && next.threads == s.threads[t := next.threads[t]]
            && |next.slots| == |s.slots| && next.slots == s.slots[i := next.slots[i]]
            && next.slots[i].key == s.slots[i].key && next.slots[i].live == s.slots[i].live
            && (s.threads[t].Done? ==> next.threads[t] == Idle && next.slots == s.slots)
            && (!s.threads[t].Done? ==>
                  && next.threads[t].InSlot() && next.threads[t].slot == i
                  && (s.slots[i].holder == None || s.slots[i].holder == Some(t))
                  && next.slots[i].holder == (if next.threads[t].InLock() then Some(t) else None))
  {
    hide SlotOf, Settled;
    var next := Next(s, t, action).value;
    assert next.threads == s.threads[t := next.threads[t]];
    assert next.slots == s.slots[s.threads[t].slot := next.slots[s.threads[t].slot]];
  }

  lemma EmptyKept(s: State, t: nat, action: Action)
    requires Indexed(s) && HoldersMatch(s) && EmptyWhileLoading(s) && Next(s, t, action).Some?
    ensures EmptyWhileLoading(Next(s, t, action).value)
  {
    hide SlotOf, Settled;
  }

  lemma OneSlotKept(s: State, t: nat, action: Action)
    requires Indexed(s) && HoldersMatch(s) && OneSlotEach(s) && Next(s, t, action).Some?
    ensures OneSlotEach(Next(s, t, action).value)
  {
    hide Settled;
    if s.threads[t].InSlot() {
      SlotAfter(s, t, action);
      hide Next;
    } else if action.Find? {
      SlotOfFinds(s.slots, action.key, 0);
      hide SlotOf;
      assert SlotOf(s.slots, action.key, 0) == |s.slots| ==>
          forall i :: 0 <= i < |s.slots| && s.slots[i].live ==> Lives(s.slots, i, s.slots[i].key);
    }
  }

  /** Every step, clears among them, keeps the invariant: the budget above all. */
  lemma StepKeeps(s: State, t: nat, action: Action)
    requires Inv(s) && Next(s, t, action).Some?
    ensures Inv(Next(s, t, action).value)
    ensures Next(s, t, action).value.budget == s.budget
  {
    hide Next, HoldersMatch, EmptyWhileLoading, OneSlotEach;
    BudgetKept(s, t, action);
    IndexedKept(s, t, action);
    HoldersKept(s, t, action);
    EmptyKept(s, t, action);
    OneSlotKept(s, t, action);
  }
}
