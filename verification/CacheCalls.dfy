/**
 What a call of the cache ends in, told by what it saw on its way: the slot at its look, the
 most the value may take, the count it reserved against, what loading gave, and the count it
 settled. Each call's own steps are found in its run, so an outcome is the one those make it.
 */
module CacheCalls {
  import opened Wrappers
  import opened Words
  import opened Cache
  import opened CacheSafety

  /** Thread `t` does `action` at the `k`th state of the run. */
  ghost predicate Acts(run: seq<State>, k: nat, t: nat, action: Action) {
    k + 1 < |run| && t < |run[k].threads| && Indexed(run[k]) && Next(run[k], t, action) == Some(run[k + 1])
  }

  /** From the `k`th state on thread `t` is in one call, of this slot. */
  ghost predicate Since(run: seq<State>, k: nat, t: nat, slot: nat) {
    k < |run| && forall i :: k <= i < |run| ==> InCall(run[i], t, slot)
  }

  ghost predicate InCall(s: State, t: nat, slot: nat) {
    t < |s.threads| && s.threads[t].InSlot() && s.threads[t].slot == slot && slot < |s.slots|
  }

  // ----- the steps of a call -----

  /** It looked at the slot, which held a value. */
  ghost predicate Found(run: seq<State>, k: nat, t: nat, slot: nat, value: Value) {
    && Since(run, k, t, slot) && run[k].threads[t] == Locked(slot)
    && run[k].slots[slot].held == Some(value)
  }

  /** It looked at the slot, which was empty, and the value may take so much, if that is known. */
  ghost predicate Looked(run: seq<State>, k: nat, t: nat, slot: nat, most: Option<Word>) {
    && Since(run, k, t, slot) && run[k].threads[t] == Locked(slot) && run[k].slots[slot].held.None?
    && Acts(run, k, t, Look(most))
  }

  /** It read this count, the last one it read by the `e`th state, to reserve against. */
  ghost predicate Read(run: seq<State>, k: nat, e: nat, t: nat, slot: nat, most: Word, seen: Word) {
    && Since(run, k, t, slot) && k < e < |run| && run[k].used == seen
    && forall i :: k < i <= e ==> run[i].threads[t] == Reserving(slot, most, seen)
  }

  /** It gave up where the count it had last read could not take the most the value may. */
  ghost predicate Refused(run: seq<State>, k: nat, e: nat, t: nat, slot: nat, most: Word, seen: Word) {
    Read(run, k, e, t, slot, most, seen) && Acts(run, e, t, Reserve(false)) && seen + most > run[e].budget
  }

  /** It counted the most the value may take, and that fitted the budget. */
  ghost predicate Reserved(run: seq<State>, k: nat, t: nat, slot: nat, most: Word) {
    && Since(run, k, t, slot) && k + 1 < |run|
    && run[k + 1].used == run[k].used + most <= run[k].budget
  }

  /** It loaded, and loading gave this. */
  ghost predicate Loaded(run: seq<State>, k: nat, t: nat, slot: nat, loaded: Option<Value>) {
    Since(run, k, t, slot) && run[k].threads[t].Loading? && Acts(run, k, t, Load(loaded))
  }

  /** It counted what the value takes in place of what it reserved, if that fitted, and released that otherwise. */
  ghost predicate Counted(run: seq<State>, k: nat, t: nat, slot: nat, most: Word, size: Word, taken: bool) {
    && Since(run, k, t, slot) && k + 1 < |run|
    && var rest := if run[k].used > most then run[k].used - most else 0;
       && (taken <==> (if rest + size > MAX_WORD then MAX_WORD else rest + size) <= run[k].budget)
       && run[k + 1].used == if taken then (if rest + size > MAX_WORD then MAX_WORD else rest + size) else rest
  }

  // ----- where a call stands -----

  ghost predicate HasLooked(run: seq<State>, t: nat, slot: nat, most: Option<Word>) {
    exists k: nat :: Looked(run, k, t, slot, most)
  }

  ghost predicate HasReserved(run: seq<State>, t: nat, slot: nat, most: Word) {
    HasLooked(run, t, slot, Some(most)) && exists k: nat :: Reserved(run, k, t, slot, most)
  }

  ghost predicate HasLoaded(run: seq<State>, t: nat, slot: nat, loaded: Option<Value>) {
    exists k: nat :: Loaded(run, k, t, slot, loaded)
  }

  ghost predicate HasFound(run: seq<State>, t: nat, slot: nat, value: Value) {
    exists k: nat :: Found(run, k, t, slot, value)
  }

  ghost predicate HasRead(run: seq<State>, t: nat, slot: nat, most: Word, seen: Word) {
    exists k: nat, e: nat :: e + 1 == |run| && Read(run, k, e, t, slot, most, seen)
  }

  ghost predicate HasCounted(run: seq<State>, t: nat, slot: nat, most: Word, size: Word, taken: bool) {
    exists k: nat :: Counted(run, k, t, slot, most, size, taken)
  }

  /** It reserved the most a value may take, and then counted what it takes. */
  ghost predicate WasCounted(run: seq<State>, t: nat, slot: nat, loaded: Option<Value>, taken: bool) {
    exists most: Word ::
      HasReserved(run, t, slot, most)
      && HasCounted(run, t, slot, most, if loaded.Some? then loaded.value.size else 0, taken)
  }

  /** No room for the value: a count could not take the most it may. */
  ghost predicate WasRefused(run: seq<State>, t: nat, slot: nat) {
    exists most: Word, seen: Word, k: nat, e: nat ::
      HasLooked(run, t, slot, Some(most)) && Refused(run, k, e, t, slot, most, seen)
  }

  /** What a thread's place says it has done, and what a call that ended did. */
  ghost predicate Did(run: seq<State>, t: nat)
    requires run != [] && t < |run[|run| - 1].threads|
  {
    var s := run[|run| - 1];
    match s.threads[t]
    case Reserving(slot, most, seen) => HasLooked(run, t, slot, Some(most)) && HasRead(run, t, slot, most, seen)
    case Loading(slot, most) => HasReserved(run, t, slot, most)
    case Settling(slot, most, loaded, _) => HasReserved(run, t, slot, most) && HasLoaded(run, t, slot, loaded)
    case Storing(slot, loaded, taken) =>
      && HasLoaded(run, t, slot, loaded)
      && WasCounted(run, t, slot, loaded, taken)
    case Done(slot, Got(value)) => HasFound(run, t, slot, value) || HasLoaded(run, t, slot, Some(value))
    case Done(slot, NoRoom) => HasLooked(run, t, slot, None) || WasRefused(run, t, slot)
    case Done(slot, Failed) => HasLoaded(run, t, slot, None)
    case _ => true
  }

  /** A step more: what was done stays done while the call goes on. */
  lemma StillSince(run: seq<State>, next: State, k: nat, t: nat, slot: nat)
    requires Since(run, k, t, slot) && InCall(next, t, slot)
    ensures Since(run + [next], k, t, slot)
  {
    hide InCall;
  }

  lemma StillDone(run: seq<State>, next: State, t: nat, slot: nat)
    requires InCall(next, t, slot)
    ensures forall most :: HasLooked(run, t, slot, most) ==> HasLooked(run + [next], t, slot, most)
    ensures forall most :: HasReserved(run, t, slot, most) ==> HasReserved(run + [next], t, slot, most)
    ensures forall loaded :: HasLoaded(run, t, slot, loaded) ==> HasLoaded(run + [next], t, slot, loaded)
    ensures forall value :: HasFound(run, t, slot, value) ==> HasFound(run + [next], t, slot, value)
    ensures forall most, size, taken ::
              HasCounted(run, t, slot, most, size, taken) ==> HasCounted(run + [next], t, slot, most, size, taken)
    ensures WasRefused(run, t, slot) ==> WasRefused(run + [next], t, slot)
  {
    hide InCall, Next, Indexed;
    var more := run + [next];
    forall k: nat | Since(run, k, t, slot) ensures Since(more, k, t, slot) {
      StillSince(run, next, k, t, slot);
    }
    assert forall k: nat :: k < |run| ==> more[k] == run[k];
    forall most | HasLooked(run, t, slot, most) ensures HasLooked(more, t, slot, most) {
      var k: nat :| Looked(run, k, t, slot, most);
      assert Looked(more, k, t, slot, most);
    }
    forall most | HasReserved(run, t, slot, most) ensures HasReserved(more, t, slot, most) {
      var k: nat :| Reserved(run, k, t, slot, most);
      assert Reserved(more, k, t, slot, most);
    }
    forall loaded | HasLoaded(run, t, slot, loaded) ensures HasLoaded(more, t, slot, loaded) {
      var k: nat :| Loaded(run, k, t, slot, loaded);
      assert Loaded(more, k, t, slot, loaded);
    }
    forall value | HasFound(run, t, slot, value) ensures HasFound(more, t, slot, value) {
      var k: nat :| Found(run, k, t, slot, value);
      assert Found(more, k, t, slot, value);
    }
    forall most, size, taken | HasCounted(run, t, slot, most, size, taken)
      ensures HasCounted(more, t, slot, most, size, taken)
    {
      var k: nat :| Counted(run, k, t, slot, most, size, taken);
      assert Counted(more, k, t, slot, most, size, taken);
    }
    if WasRefused(run, t, slot) {
      var most: Word, seen: Word, k: nat, e: nat :|
        HasLooked(run, t, slot, Some(most)) && Refused(run, k, e, t, slot, most, seen);
      assert Refused(more, k, e, t, slot, most, seen);
    }
  }

  /** While it waits for its turn, the last count a thread read stays that. */
  lemma StillRead(run: seq<State>, next: State, t: nat, slot: nat, most: Word, seen: Word)
    requires HasRead(run, t, slot, most, seen) && InCall(next, t, slot)
    requires next.threads[t] == Reserving(slot, most, seen)
    ensures HasRead(run + [next], t, slot, most, seen)
  {
    hide InCall;
    var k: nat, e: nat :| e + 1 == |run| && Read(run, k, e, t, slot, most, seen);
    StillSince(run, next, k, t, slot);
    assert Read(run + [next], k, |run|, t, slot, most, seen);
  }

  /** A thread that another's step leaves alone has done what it had. */
  lemma OtherDid(run: seq<State>, next: State, t: nat)
    requires run != [] && t < |run[|run| - 1].threads| == |next.threads| && Did(run, t)
    requires next.threads[t] == run[|run| - 1].threads[t] && Indexed(next)
    ensures Did(run + [next], t)
  {
    hide HasLooked, HasReserved, HasLoaded, HasRead, HasCounted, WasRefused, HasFound;
    var thread := next.threads[t];
    if thread.InSlot() {
      StillDone(run, next, t, thread.slot);
      if thread.Reserving? {
        StillRead(run, next, t, thread.slot, thread.most, thread.seen);
      }
    }
  }

  // ----- the thread's own step -----

  /** A step of thread `t` after a run, from the state it ends in. */
  ghost predicate StepsTo(run: seq<State>, t: nat, action: Action, next: State) {
    && run != [] && Inv(run[|run| - 1]) && t < |run[|run| - 1].threads|
    && Next(run[|run| - 1], t, action) == Some(next)
  }

  lemma JustNow(run: seq<State>, t: nat, action: Action, next: State, slot: nat)
    requires StepsTo(run, t, action, next)
    requires InCall(run[|run| - 1], t, slot) && InCall(next, t, slot)
    ensures Since(run + [next], |run| - 1, t, slot) && Acts(run + [next], |run| - 1, t, action)
  {
    hide Next, InCall;
    var more := run + [next];
    assert more[|run| - 1] == run[|run| - 1];
  }

  /** The thread and its slot stay in the call. */
  lemma StaysIn(run: seq<State>, t: nat, action: Action, next: State)
    requires StepsTo(run, t, action, next) && run[|run| - 1].threads[t].InSlot() && !run[|run| - 1].threads[t].Done?
    ensures var slot := run[|run| - 1].threads[t].slot; InCall(run[|run| - 1], t, slot) && InCall(next, t, slot)
  {
    var s := run[|run| - 1];
    SlotAfter(s, t, action);
    hide Next;
  }

  lemma LookDid(run: seq<State>, t: nat, action: Action, next: State)
    requires StepsTo(run, t, action, next) && run[|run| - 1].threads[t].Locked?
    ensures Did(run + [next], t)
  {
    var (s, more, k) := (run[|run| - 1], run + [next], |run| - 1);
    var slot := s.threads[t].slot;
    StaysIn(run, t, action, next);
    JustNow(run, t, action, next, slot);
    assert more[k] == s && more[|run|] == next;
    if s.slots[slot].held.Some? {
      assert Found(more, k, t, slot, s.slots[slot].held.value);
    } else {
      assert Looked(more, k, t, slot, action.most);
      if action.most.Some? {
        assert Read(more, k, |run|, t, slot, action.most.value, s.used);
      }
    }
  }

  lemma ReserveDid(run: seq<State>, t: nat, action: Action, next: State)
    requires StepsTo(run, t, action, next) && Did(run, t) && run[|run| - 1].threads[t].Reserving?
    ensures Did(run + [next], t)
  {
    var (s, more, k) := (run[|run| - 1], run + [next], |run| - 1);
    var Reserving(slot, most, seen) := s.threads[t];
    StaysIn(run, t, action, next);
    JustNow(run, t, action, next, slot);
    StillDone(run, next, t, slot);
    assert more[k] == s && more[|run|] == next;
    hide HasLooked;
    if next.threads[t].Done? {
      var j: nat, e: nat :| e + 1 == |run| && Read(run, j, e, t, slot, most, seen);
      hide InCall;
      StillSince(run, next, j, t, slot);
      assert Read(more, j, e, t, slot, most, seen);
      assert Acts(more, e, t, Reserve(false));
      assert Refused(more, j, e, t, slot, most, seen);
    } else if next.threads[t].Loading? {
      assert Reserved(more, k, t, slot, most);
    } else {
      assert Read(more, k, |run|, t, slot, most, s.used);
    }
  }

  lemma LoadDid(run: seq<State>, t: nat, action: Action, next: State)
    requires StepsTo(run, t, action, next) && Did(run, t) && run[|run| - 1].threads[t].Loading?
    ensures Did(run + [next], t)
  {
    var (s, more, k) := (run[|run| - 1], run + [next], |run| - 1);
    var slot := s.threads[t].slot;
    StaysIn(run, t, action, next);
    JustNow(run, t, action, next, slot);
    StillDone(run, next, t, slot);
    hide HasReserved;
    assert more[k] == s && more[|run|] == next;
    assert Loaded(more, k, t, slot, action.loaded);
  }

  lemma SettleDid(run: seq<State>, t: nat, action: Action, next: State)
    requires StepsTo(run, t, action, next) && Did(run, t) && run[|run| - 1].threads[t].Settling?
    ensures Did(run + [next], t)
  {
    hide SlotOf, Dropped, HoldersMatch, EmptyWhileLoading, OneSlotEach, HasReserved, HasLoaded;
    var (s, more, k) := (run[|run| - 1], run + [next], |run| - 1);
    var Settling(slot, most, loaded, seen) := s.threads[t];
    StaysIn(run, t, action, next);
    JustNow(run, t, action, next, slot);
    StillDone(run, next, t, slot);
    assert more[k] == s && more[|run|] == next;
    if next.threads[t].Storing? {
      assert Counted(more, k, t, slot, most, Size(loaded), next.threads[t].taken);
      assert HasCounted(more, t, slot, most, Size(loaded), next.threads[t].taken);
    }
  }

  lemma StoreDid(run: seq<State>, t: nat, action: Action, next: State)
    requires StepsTo(run, t, action, next) && Did(run, t) && run[|run| - 1].threads[t].Storing?
    ensures Did(run + [next], t)
  {
    var s := run[|run| - 1];
    StaysIn(run, t, action, next);
    StillDone(run, next, t, s.threads[t].slot);
    hide HasReserved, HasLoaded, HasCounted, InCall;
    assert (run + [next])[|run|] == next;
  }

  lemma OwnDid(run: seq<State>, t: nat, action: Action, next: State)
    requires StepsTo(run, t, action, next) && Did(run, t) && t < |next.threads|
    ensures Did(run + [next], t)
  {
    match run[|run| - 1].threads[t]
    case Locked(_) => LookDid(run, t, action, next);
    case Reserving(_, _, _) => ReserveDid(run, t, action, next);
    case Loading(_, _) => LoadDid(run, t, action, next);
    case Settling(_, _, _, _) => SettleDid(run, t, action, next);
    case Storing(_, _, _) => StoreDid(run, t, action, next);
    case _ =>
      hide HasReserved, HasLoaded, HasCounted, InCall, HasLooked, HasRead, WasRefused, HasFound, SlotOf, Dropped, Inv;
      assert (run + [next])[|run|] == next;
  }

  lemma OthersStay(s: State, u: nat, action: Action, t: nat)
    requires Indexed(s) && Next(s, u, action).Some? && t < |s.threads| && t != u
    ensures |Next(s, u, action).value.threads| == |s.threads| && Next(s, u, action).value.threads[t] == s.threads[t]
  {
    hide SlotOf, Dropped, Settled;
  }

  // ----- runs -----

  /** In every state of every run, each call is where its own steps lead: one that ended gave a value it found in its
      slot or loaded itself; it ended without room only where the most the value may take is not known, or the count
      it had last read could not take that; and it failed only where loading gave nothing. */
  lemma {:induction false} CallsDid(run: seq<State>, t: nat)
    requires Run(run) && t < |run[|run| - 1].threads|
    ensures Did(run, t)
  {
    hide Did, Next, Inv;
    var before := run[..|run| - 1];
    if before == [] {
      StartsIdle(run, t);
    } else {
      var s := before[|before| - 1];
      RunKeeps(before, |before| - 1);
      var u: nat, action :| Next(s, u, action) == Some(run[|run| - 1]);
      StepKeeps(s, u, action);
      ThreadsStay(s, u, action);
      CallsDid(before, t);
      assert run == before + [run[|run| - 1]];
      if t == u {
        OwnDid(before, t, action, run[|run| - 1]);
      } else {
        OthersStay(s, u, action, t);
        InvIndexed(run[|run| - 1]);
        OtherDid(before, run[|run| - 1], t);
      }
    }
  }

  lemma InvIndexed(s: State)
    requires Inv(s)
    ensures Indexed(s)
  {
  }

  lemma ThreadsStay(s: State, u: nat, action: Action)
    requires Indexed(s) && Next(s, u, action).Some?
    ensures u < |s.threads| == |Next(s, u, action).value.threads|
  {
    hide SlotOf, Dropped, Settled;
  }

  lemma StartsIdle(run: seq<State>, t: nat)
    requires |run| == 1 && Run(run) && t < |run[0].threads|
    ensures Did(run, t)
  {
  }

  /** Where a call is once it has loaded: on its way to give what it loaded, or done and gave it. */
  ghost predicate Gives(s: State, t: nat, slot: nat, loaded: Option<Value>) {
    && t < |s.threads|
    && match s.threads[t]
       case Settling(i, _, value, _) => i == slot && value == loaded
       case Storing(i, value, _) => i == slot && value == loaded
       case Done(i, outcome) => i == slot && outcome == if loaded.Some? then Got(loaded.value) else Failed
       case _ => false
  }

  /** The caller that loads a value gets it, whether the value is kept or not. */
  lemma {:induction false} OwnCallerGets(run: seq<State>, k: nat, t: nat, slot: nat, loaded: Option<Value>)
    requires Run(run) && Loaded(run, k, t, slot, loaded)
    ensures Gives(run[|run| - 1], t, slot, loaded)
    decreases |run|
  {
    if |run| == k + 2 {
      LoadGives(run, k, t, slot, loaded);
    } else {
      var (before, next) := (run[..|run| - 1], run[|run| - 1]);
      assert Loaded(before, k, t, slot, loaded);
      OwnCallerGets(before, k, t, slot, loaded);
      var u: nat, action :| Next(before[|before| - 1], u, action) == Some(next);
      assert InCall(next, t, slot);
      GivesStays(before[|before| - 1], u, action, t, slot, loaded);
    }
  }

  lemma LoadGives(run: seq<State>, k: nat, t: nat, slot: nat, loaded: Option<Value>)
    requires Loaded(run, k, t, slot, loaded)
    ensures Gives(run[k + 1], t, slot, loaded)
  {
    assert InCall(run[k], t, slot);
  }

  lemma GivesStays(s: State, u: nat, action: Action, t: nat, slot: nat, loaded: Option<Value>)
    requires Indexed(s) && Next(s, u, action).Some? && Gives(s, t, slot, loaded)
    requires InCall(Next(s, u, action).value, t, slot)
    ensures Gives(Next(s, u, action).value, t, slot, loaded)
  {
    hide SlotOf, Dropped, Settled;
  }

  /** A caller that finds the slot empty, and does not know the most the value may take, gets none. */
  lemma {:induction false} UnknownGetsNone(run: seq<State>, k: nat, t: nat, slot: nat)
    requires Run(run) && Looked(run, k, t, slot, None)
    ensures t < |run[|run| - 1].threads| && run[|run| - 1].threads[t] == Done(slot, NoRoom)
    decreases |run|
  {
    if |run| == k + 2 {
      assert InCall(run[k], t, slot);
    } else {
      var (before, next) := (run[..|run| - 1], run[|run| - 1]);
      assert Looked(before, k, t, slot, None);
      UnknownGetsNone(before, k, t, slot);
      var u: nat, action :| Next(before[|before| - 1], u, action) == Some(next);
      assert InCall(next, t, slot);
      if u != t {
        OthersStay(before[|before| - 1], u, action, t);
      }
    }
  }

  /** A value is kept in its slot exactly where the count took its bytes. */
  lemma KeptWhereCounted(run: seq<State>, k: nat, t: nat, slot: nat, loaded: Option<Value>, taken: bool)
    requires Run(run) && k + 1 < |run| && Acts(run, k, t, Store) && run[k].threads[t] == Storing(slot, loaded, taken)
    ensures WasCounted(run[..k + 1], t, slot, loaded, taken)
    ensures slot < |run[k + 1].slots|
            && run[k + 1].slots[slot].held == if loaded.Some? && taken then loaded else None
  {
    hide WasCounted, HasLoaded;
    var upTo := run[..k + 1];
    RunUpTo(run, k);
    RunKeeps(run, k);
    assert upTo[|upTo| - 1] == run[k];
    CallsDid(upTo, t);
  }

  lemma {:induction false} RunUpTo(run: seq<State>, k: nat)
    requires Run(run) && k < |run|
    ensures Run(run[..k + 1])
  {
    hide Step, Init;
    if k + 1 == |run| {
      assert run[..k + 1] == run;
    } else {
      RunUpTo(run[..|run| - 1], k);
      assert run[..|run| - 1][..k + 1] == run[..k + 1];
    }
  }

  /** Slots keep their keys. */
  lemma KeysStay(s: State, u: nat, action: Action)
    requires Indexed(s) && Next(s, u, action).Some?
    ensures var next := Next(s, u, action).value;
            |s.slots| <= |next.slots| && forall i :: 0 <= i < |s.slots| ==> next.slots[i].key == s.slots[i].key
  {
    hide SlotOf, Settled;
  }

  /** A call is in a slot of the key it asked for, whatever is cleared meanwhile. */
  lemma {:induction false} OwnKey(run: seq<State>, k: nat, t: nat, key: Key)
    requires Run(run) && Acts(run, k, t, Find(key))
    requires forall i :: k < i < |run| ==> t < |run[i].threads| && run[i].threads[t].InSlot()
    ensures var s := run[|run| - 1];
            s.threads[t].slot < |s.slots| && s.slots[s.threads[t].slot].key == key
    decreases |run|
  {
    if |run| == k + 2 {
      FoundKey(run[k], t, key);
    } else {
      var (before, next) := (run[..|run| - 1], run[|run| - 1]);
      assert Acts(before, k, t, Find(key));
      OwnKey(before, k, t, key);
      var s := before[|before| - 1];
      var u: nat, action :| Next(s, u, action) == Some(next);
      KeysStay(s, u, action);
      if u == t {
        SameCall(s, t, action);
      } else {
        OthersStay(s, u, action, t);
      }
    }
  }

  lemma FoundKey(s: State, t: nat, key: Key)
    requires Indexed(s) && Next(s, t, Find(key)).Some?
    ensures var next := Next(s, t, Find(key)).value;
            && t < |next.threads| && next.threads[t].InSlot()
            && next.threads[t].slot < |next.slots| && next.slots[next.threads[t].slot].key == key
  {
    hide Settled, Dropped;
  }

  lemma SameCall(s: State, t: nat, action: Action)
    requires Indexed(s) && Next(s, t, action).Some? && s.threads[t].InSlot()
    ensures var next := Next(s, t, action).value;
            next.threads[t].InSlot() ==> next.threads[t].slot == s.threads[t].slot
  {
    hide SlotOf, Settled, Dropped;
  }
}
