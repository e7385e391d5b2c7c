/** The two-thread front end: a caller runs slot 1 of a subframe while a worker runs slot 0.
    They meet through one mutex, one condition variable used in both directions and an instance counter.
    Every statement that takes, tests or releases shared state is one step; steps interleave freely. */
module FepHandshake {
  import opened FrontEndSlots

  datatype Owner = Free | HeldByCaller | HeldByWorker

  // eNB_fep_full_2thread, with wait_on_busy_condition at its end
  datatype CallerPc =
    | Outside | Lock | TestBusy | Raise | Signal | Unlock | Work(k: nat)
    | Relock | Recheck | Asleep | Woken | Leave
    | ExitBusy | ExitTimeout

  // fep_thread: wait_on_condition, fep0, release_thread, pthread_cond_signal
  datatype WorkerPc =
    | WLock | WTest | WAsleep | WWoken | WGo | WWork(wk: nat)
    | RLock | RDecrement | RUnlock | RSignal

  datatype State = State(c: CallerPc, w: WorkerPc, owner: Owner, cnt: int, subframe: nat,
                         log: seq<SlotAct>, calls: seq<nat>)

  datatype Act =
    | Call(subframe: nat)
    | CallerStep
    | WorkerStep
    | LockTimeout        // pthread_mutex_timedlock gives up while the mutex is held
    | SpuriousCaller     // pthread_cond_wait may return without a signal
    | SpuriousWorker

  function Init(): State
  {
    State(Outside, WLock, Free, -1, 0, [], [])
  }

  predicate Inside(s: State)
  {
    !s.c.Outside? && !s.c.ExitBusy? && !s.c.ExitTimeout?
  }

  predicate CallerEnabled(s: State)
  {
    Inside(s) && !s.c.Asleep? && (s.c.Lock? || s.c.Relock? || s.c.Woken? ==> s.owner == Free)
  }

  predicate WorkerEnabled(s: State)
  {
    !s.w.WAsleep? && (s.w.WLock? || s.w.WWoken? || s.w.RLock? ==> s.owner == Free)
  }

  predicate Enabled(s: State, a: Act)
  {
    match a
    case Call(_) => s.c.Outside?
    case CallerStep => CallerEnabled(s)
    case WorkerStep => WorkerEnabled(s)
    case LockTimeout => s.c.Lock? && s.owner != Free
    case SpuriousCaller => s.c.Asleep?
    case SpuriousWorker => s.w.WAsleep?
  }

  function DoOp(log: seq<SlotAct>, slot: nat, subframe: nat, k: nat): seq<SlotAct>
  {
    log + [SlotAct(SlotIndex(slot, subframe), OpAt(k))]
  }

  function CallerNext(s: State, symbols: nat): State
  {
    match s.c
    case Lock => s.(c := TestBusy, owner := HeldByCaller)
    case TestBusy => if s.cnt == 0 then s.(c := ExitBusy, owner := Free) else s.(c := Raise)
    case Raise => s.(c := Signal, cnt := s.cnt + 1)
    case Signal => s.(c := Unlock, w := if s.w.WAsleep? then WWoken else s.w)
    case Unlock => s.(c := Work(0), owner := Free)
    case Work(k) =>
      s.(c := if k < symbols then Work(k + 1) else Relock, log := DoOp(s.log, 1, s.subframe, k))
    case Relock => s.(c := Recheck, owner := HeldByCaller)
    case Woken => s.(c := Recheck, owner := HeldByCaller)
    case Recheck => if s.cnt == 0 then s.(c := Asleep, owner := Free) else s.(c := Leave)
    case Leave => s.(c := Outside, owner := Free, calls := s.calls + [s.subframe])
    case _ => s
  }

  function WorkerNext(s: State, symbols: nat): State
  {
    match s.w
    case WLock => s.(w := WTest, owner := HeldByWorker)
    case WWoken => s.(w := WTest, owner := HeldByWorker)
    case WTest => if s.cnt < 0 then s.(w := WAsleep, owner := Free) else s.(w := WGo)
    case WGo => s.(w := WWork(0), owner := Free)
    case WWork(k) =>
      s.(w := if k < symbols then WWork(k + 1) else RLock, log := DoOp(s.log, 0, s.subframe, k))
    case RLock => s.(w := RDecrement, owner := HeldByWorker)
    case RDecrement => s.(w := RUnlock, cnt := s.cnt - 1)
    case RUnlock => s.(w := RSignal, owner := Free)
    case RSignal => s.(w := WLock, c := if s.c.Asleep? then Woken else s.c)
    case WAsleep => s
  }

  function Next(s: State, symbols: nat, a: Act): State
    requires Enabled(s, a)
  {
    match a
    case Call(sf) => s.(c := Lock, subframe := sf)
    case CallerStep => CallerNext(s, symbols)
    case WorkerStep => WorkerNext(s, symbols)
    case LockTimeout => s.(c := ExitTimeout)
    case SpuriousCaller => s.(c := Woken)
    case SpuriousWorker => s.(w := WWoken)
  }

  /** The state after a schedule; a step that is not enabled leaves the state alone. */
  function Run(symbols: nat, acts: seq<Act>): State
  {
    if acts == [] then Init()
    else
      var s := Run(symbols, acts[..|acts| - 1]);
      var a := acts[|acts| - 1];
      if Enabled(s, a) then Next(s, symbols, a) else s
  }

  /* ---------- the invariant ---------- */

  predicate BeforeRaise(c: CallerPc)
  {
    c.Outside? || c.Lock? || c.TestBusy? || c.Raise? || c.ExitTimeout?
  }

  predicate WorkerParked(w: WorkerPc)
  {
    w.RSignal? || w.WLock? || w.WTest? || w.WAsleep? || w.WWoken?
  }

  predicate WorkerServing(w: WorkerPc)
  {
    w.WGo? || w.WWork? || w.RLock? || w.RDecrement?
  }

  predicate MutexInv(s: State)
  {
    && (s.owner == HeldByCaller <==>
          s.c.TestBusy? || s.c.Raise? || s.c.Signal? || s.c.Unlock? || s.c.Recheck? || s.c.Leave?)
    && (s.owner == HeldByWorker <==> s.w.WTest? || s.w.WGo? || s.w.RDecrement? || s.w.RUnlock?)
  }

  predicate CounterInv(s: State)
  {
    && !s.c.ExitBusy?
    && (BeforeRaise(s.c) ==> s.cnt == -1 && WorkerParked(s.w))
    && (!BeforeRaise(s.c) ==>
          || (s.cnt == 0 && !s.c.Leave? && (WorkerParked(s.w) || WorkerServing(s.w))
              && (s.w.WAsleep? ==> s.c.Signal?)
              && (WorkerServing(s.w) ==> !s.c.Signal? && !s.c.Unlock?))
          || (s.cnt == -1 && !s.c.Signal? && !s.c.Unlock? && (WorkerParked(s.w) || s.w.RUnlock?)
              && (s.c.Asleep? ==> s.w.RUnlock? || s.w.RSignal?)))
  }

  /** How much of slot 0 and slot 1 of the current subframe has been processed in this call. */
  function WorkerDone(s: State, symbols: nat): nat
  {
    if BeforeRaise(s.c) then 0
    else if s.cnt == -1 then symbols + 1
    else if s.w.WWork? then s.w.wk
    else if s.w.RLock? || s.w.RDecrement? then symbols + 1
    else 0
  }

  function CallerDone(s: State, symbols: nat): nat
  {
    if BeforeRaise(s.c) || s.c.Signal? || s.c.Unlock? || s.c.ExitBusy? then 0
    else if s.c.Work? then s.c.k
    else symbols + 1
  }

  /** What the sequential front end does for a list of subframes. */
  function SequentialLog(calls: seq<nat>, symbols: nat): seq<SlotAct>
  {
    if calls == [] then []
    else SequentialLog(calls[..|calls| - 1], symbols) + FullLog(calls[|calls| - 1], symbols)
  }

  function Pending(slot: nat, subframe: nat, workerDone: nat, callerDone: nat): seq<SlotOp>
  {
    if slot == 2 * subframe then FirstOps(workerDone)
    else if slot == 2 * subframe + 1 then FirstOps(callerDone)
    else []
  }

  function PendingIn(s: State, symbols: nat, slot: nat): seq<SlotOp>
  {
    Pending(slot, s.subframe, WorkerDone(s, symbols), CallerDone(s, symbols))
  }

  ghost predicate LogAt(s: State, symbols: nat, slot: nat)
  {
    Project(s.log, slot) == Project(SequentialLog(s.calls, symbols), slot) + PendingIn(s, symbols, slot)
  }

  ghost predicate LogInv(s: State, symbols: nat)
  {
    && (s.c.Work? ==> s.c.k <= symbols)
    && (s.w.WWork? ==> s.w.wk <= symbols)
    && forall slot: nat :: LogAt(s, symbols, slot)
  }

  ghost predicate Inv(s: State, symbols: nat)
  {
    MutexInv(s) && CounterInv(s) && LogInv(s, symbols)
  }

  lemma PendingSteps(slot: nat, subframe: nat, w: nat, c: nat)
    ensures Pending(slot, subframe, w, c + 1)
         == Pending(slot, subframe, w, c) + if SlotIndex(1, subframe) == slot then [OpAt(c)] else []
    ensures Pending(slot, subframe, w + 1, c)
         == Pending(slot, subframe, w, c) + if SlotIndex(0, subframe) == slot then [OpAt(w)] else []
  {
  }

  lemma CallerWorkKeepsLog(s: State, symbols: nat, slot: nat)
    requires LogAt(s, symbols, slot) && s.c.Work? && s.c.k <= symbols
    ensures LogAt(CallerNext(s, symbols), symbols, slot)
  {
    hide Project, SequentialLog, Pending, SlotIndex, OpAt;
    var t, a := CallerNext(s, symbols), SlotAct(SlotIndex(1, s.subframe), OpAt(s.c.k));
    assert t.log == s.log + [a] && t.calls == s.calls && t.subframe == s.subframe;
    assert WorkerDone(t, symbols) == WorkerDone(s, symbols) && CallerDone(t, symbols) == s.c.k + 1;
    ProjectSnoc(s.log, a, slot);
    PendingSteps(slot, s.subframe, WorkerDone(s, symbols), s.c.k);
    AddOne(Project(SequentialLog(s.calls, symbols), slot), PendingIn(s, symbols, slot),
           if a.slot == slot then [a.op] else []);
  }

  lemma AddOne(before: seq<SlotOp>, pending: seq<SlotOp>, more: seq<SlotOp>)
    ensures before + pending + more == before + (pending + more)
  {
  }

  lemma WorkerWorkKeepsLog(s: State, symbols: nat, slot: nat)
    requires LogAt(s, symbols, slot) && s.w.WWork? && s.w.wk <= symbols && !BeforeRaise(s.c) && s.cnt == 0
    ensures LogAt(WorkerNext(s, symbols), symbols, slot)
  {
    hide Project, SequentialLog, Pending, SlotIndex, OpAt;
    var t, a := WorkerNext(s, symbols), SlotAct(SlotIndex(0, s.subframe), OpAt(s.w.wk));
    assert t.log == s.log + [a] && t.calls == s.calls && t.subframe == s.subframe;
    assert CallerDone(t, symbols) == CallerDone(s, symbols) && WorkerDone(t, symbols) == s.w.wk + 1;
    ProjectSnoc(s.log, a, slot);
    PendingSteps(slot, s.subframe, s.w.wk, CallerDone(s, symbols));
    AddOne(Project(SequentialLog(s.calls, symbols), slot), PendingIn(s, symbols, slot),
           if a.slot == slot then [a.op] else []);
  }

  lemma LeaveKeepsLog(s: State, symbols: nat, slot: nat)
    requires Inv(s, symbols) && s.c.Leave?
    ensures LogAt(CallerNext(s, symbols), symbols, slot)
  {
    assert LogAt(s, symbols, slot);
    var t := CallerNext(s, symbols);
    assert t.calls[..|t.calls| - 1] == s.calls;
    ProjectConcat(SequentialLog(s.calls, symbols), FullLog(s.subframe, symbols), slot);
    FullLogPerSlot(s.subframe, symbols, slot);
  }

  lemma OtherStepKeepsDone(s: State, symbols: nat, a: Act)
    requires MutexInv(s) && CounterInv(s) && Enabled(s, a)
    requires !(a.CallerStep? && (s.c.Work? || s.c.Leave?)) && !(a.WorkerStep? && s.w.WWork?)
    ensures var t := Next(s, symbols, a);
            && t.log == s.log && t.calls == s.calls
            && WorkerDone(t, symbols) == WorkerDone(s, symbols) && CallerDone(t, symbols) == CallerDone(s, symbols)
            && (t.subframe == s.subframe || BeforeRaise(t.c))
  {
  }

  lemma OtherStepKeepsLog(s: State, symbols: nat, a: Act, slot: nat)
    requires MutexInv(s) && CounterInv(s) && LogAt(s, symbols, slot) && Enabled(s, a)
    requires !(a.CallerStep? && (s.c.Work? || s.c.Leave?)) && !(a.WorkerStep? && s.w.WWork?)
    ensures LogAt(Next(s, symbols, a), symbols, slot)
  {
    OtherStepKeepsDone(s, symbols, a);
    var t := Next(s, symbols, a);
    if t.subframe != s.subframe {
      NothingPending(t, symbols, slot);
    }
  }

  lemma StepKeepsLog(s: State, symbols: nat, a: Act, slot: nat)
    requires Inv(s, symbols) && Enabled(s, a)
    ensures LogAt(Next(s, symbols, a), symbols, slot)
  {
    assert LogAt(s, symbols, slot);
    if a.CallerStep? && s.c.Work? {
      CallerWorkKeepsLog(s, symbols, slot);
    } else if a.CallerStep? && s.c.Leave? {
      LeaveKeepsLog(s, symbols, slot);
    } else if a.WorkerStep? && s.w.WWork? {
      WorkerWorkKeepsLog(s, symbols, slot);
    } else {
      OtherStepKeepsLog(s, symbols, a, slot);
    }
  }

  lemma StepKeepsControl(s: State, symbols: nat, a: Act)
    requires Inv(s, symbols) && Enabled(s, a)
    ensures MutexInv(Next(s, symbols, a)) && CounterInv(Next(s, symbols, a))
  {
  }

  lemma StepKeepsInv(s: State, symbols: nat, a: Act)
    requires Inv(s, symbols) && Enabled(s, a)
    ensures Inv(Next(s, symbols, a), symbols)
  {
    StepKeepsControl(s, symbols, a);
    var t := Next(s, symbols, a);
    forall slot: nat
      ensures LogAt(t, symbols, slot)
    {
      StepKeepsLog(s, symbols, a, slot);
    }
  }

  lemma NothingPending(s: State, symbols: nat, slot: nat)
    requires BeforeRaise(s.c)
    ensures PendingIn(s, symbols, slot) == []
  {
  }

  lemma InitLog(symbols: nat, slot: nat)
    ensures LogAt(Init(), symbols, slot)
  {
    NothingPending(Init(), symbols, slot);
  }

  lemma InitHolds(symbols: nat)
    ensures Inv(Init(), symbols)
  {
    forall slot: nat
      ensures LogAt(Init(), symbols, slot)
    {
      InitLog(symbols, slot);
    }
  }

  lemma {:induction false} RunKeepsInv(symbols: nat, acts: seq<Act>)
    ensures Inv(Run(symbols, acts), symbols)
  {
    if acts == [] {
      InitHolds(symbols);
    } else {
      RunKeepsInv(symbols, acts[..|acts| - 1]);
      var s, a := Run(symbols, acts[..|acts| - 1]), acts[|acts| - 1];
      if Enabled(s, a) {
        StepKeepsInv(s, symbols, a);
      }
    }
  }

  /* ---------- which calls were made ---------- */

  /** The subframes of the calls made in a schedule, in order. */
  function Asked(symbols: nat, acts: seq<Act>): seq<nat>
  {
    if acts == [] then []
    else
      var init, a := acts[..|acts| - 1], acts[|acts| - 1];
      Asked(symbols, init) + if a.Call? && Enabled(Run(symbols, init), a) then [a.subframe] else []
  }

  /** Finished calls, and the one under way. */
  function Taken(s: State): seq<nat>
  {
    if s.c.Outside? then s.calls else s.calls + [s.subframe]
  }

  lemma StepTakes(s: State, symbols: nat, a: Act)
    requires Enabled(s, a)
    ensures Taken(Next(s, symbols, a)) == Taken(s) + if a.Call? then [a.subframe] else []
  {
  }

  lemma {:induction false} RunTakesAsked(symbols: nat, acts: seq<Act>)
    ensures Taken(Run(symbols, acts)) == Asked(symbols, acts)
  {
    if acts != [] {
      var init, a := acts[..|acts| - 1], acts[|acts| - 1];
      RunTakesAsked(symbols, init);
      if Enabled(Run(symbols, init), a) {
        StepTakes(Run(symbols, init), symbols, a);
      }
    }
    hide Next, Enabled, Taken;
  }

  /* ---------- main results ---------- */

  /** Whenever the caller is between calls, every slot holds what the sequential front end would have left there for the
      subframes that were asked for, whatever the schedule was and whatever the slot operations mean. */
  lemma InterleavingRefinesSequential<T>(symbols: nat, acts: seq<Act>, f: (SlotOp, T) -> T, store: seq<T>)
    requires Run(symbols, acts).c.Outside?
    ensures Exec(f, store, Run(symbols, acts).log) == Exec(f, store, SequentialLog(Asked(symbols, acts), symbols))
  {
    RunKeepsInv(symbols, acts);
    RunTakesAsked(symbols, acts);
    var s := Run(symbols, acts);
    forall slot: nat
      ensures Project(s.log, slot) == Project(SequentialLog(s.calls, symbols), slot)
    {
      assert LogAt(s, symbols, slot);
      NothingPending(s, symbols, slot);
    }
    SameProjectionsSameMeaning(f, store, s.log, SequentialLog(s.calls, symbols));
  }

  /** At the return of a call both slots of the subframe asked for have been given their whole program in it, removal first,
      and no other slot anything. */
  lemma EachCallProcessesItsSlotsOnce(symbols: nat, acts: seq<Act>, slot: nat)
    requires Run(symbols, acts).c.Leave?
    ensures var asked := Asked(symbols, acts);
            && asked != []
            && Project(Run(symbols, acts).log, slot)
               == Project(SequentialLog(asked[..|asked| - 1], symbols), slot)
                + if slot / 2 == asked[|asked| - 1] then Program(symbols) else []
  {
    RunKeepsInv(symbols, acts);
    RunTakesAsked(symbols, acts);
    var s := Run(symbols, acts);
    assert LogAt(s, symbols, slot);
    assert Asked(symbols, acts)[..|s.calls|] == s.calls;
    assert slot / 2 == s.subframe <==> slot == SlotIndex(0, s.subframe) || slot == SlotIndex(1, s.subframe);
  }

  /** The counter stays in {-1, 0}, the "FEP thread busy" exit is never taken, and never do both threads sleep:
      with one sleeper at most, a signal on the shared condition variable cannot wake the wrong thread. */
  lemma SafeHandshake(symbols: nat, acts: seq<Act>)
    ensures var s := Run(symbols, acts);
            && (s.cnt == -1 || s.cnt == 0)
            && !s.c.ExitBusy?
            && !(s.c.Asleep? && s.w.WAsleep?)
  {
    RunKeepsInv(symbols, acts);
  }

  /** No wakeup is lost: a thread sleeps on a condition that already holds only while the other one is about to signal. */
  lemma NoLostWakeup(symbols: nat, acts: seq<Act>)
    ensures var s := Run(symbols, acts);
            && (s.w.WAsleep? && s.cnt == 0 ==> s.c.Signal?)
            && (s.c.Asleep? && s.cnt == -1 ==> s.w.RUnlock? || s.w.RSignal?)
            && (s.c.Asleep? && s.cnt == 0 ==> !s.w.WAsleep?)
  {
    RunKeepsInv(symbols, acts);
  }

  /** Inside a call some thread can always step without help from a spurious wakeup. */
  lemma NeverDeadlocked(symbols: nat, acts: seq<Act>)
    requires Inside(Run(symbols, acts))
    ensures CallerEnabled(Run(symbols, acts)) || WorkerEnabled(Run(symbols, acts))
  {
    RunKeepsInv(symbols, acts);
  }

  /* ---------- every call returns ---------- */

  function CallerRank(c: CallerPc, symbols: nat): nat
  {
    match c
    case Leave => 1
    case Asleep => 1
    case Recheck => 2
    case Woken => 3
    case Relock => 3
    case Work(k) => if k <= symbols then 4 + symbols - k else 3
    case Unlock => symbols + 5
    case Signal => symbols + 8
    case Raise => symbols + 9
    case TestBusy => symbols + 10
    case Lock => symbols + 11
    case _ => 0
  }

  function WorkerRank(w: WorkerPc, symbols: nat): nat
  {
    match w
    case WAsleep => 0
    case WTest => 1
    case WLock => 2
    case WWoken => 2
    case RSignal => 5
    case RUnlock => 6
    case RDecrement => 7
    case RLock => 8
    case WWork(k) => if k <= symbols then 9 + symbols - k else 8
    case WGo => symbols + 10
  }

  /** A bound on the steps left in a call: the caller's, the worker's, and the worker's service if it is still owed. */
  function Rank(s: State, symbols: nat): nat
  {
    CallerRank(s.c, symbols) + WorkerRank(s.w, symbols)
    + if WorkerParked(s.w) && (BeforeRaise(s.c) || s.cnt == 0) then symbols + 10 else 0
  }

  lemma StepLowersRank(s: State, symbols: nat, a: Act)
    requires Inv(s, symbols) && Inside(s) && Enabled(s, a)
    requires Inside(Next(s, symbols, a))
    ensures a.CallerStep? || a.WorkerStep? ==> Rank(Next(s, symbols, a), symbols) < Rank(s, symbols)
    ensures a.SpuriousCaller? || a.SpuriousWorker? ==> Rank(Next(s, symbols, a), symbols) <= Rank(s, symbols) + 2
  {
  }

  function Spurious(acts: seq<Act>): nat
  {
    if acts == [] then 0
    else (if acts[0].SpuriousCaller? || acts[0].SpuriousWorker? then 1 else 0) + Spurious(acts[1..])
  }

  /** Every step of `more` happens, and happens inside one call. */
  predicate StaysInside(symbols: nat, acts: seq<Act>, more: seq<Act>)
    decreases |more|
  {
    && Inside(Run(symbols, acts))
    && (more != [] ==> Enabled(Run(symbols, acts), more[0]) && StaysInside(symbols, acts + [more[0]], more[1..]))
  }

  lemma RunSnoc(symbols: nat, acts: seq<Act>, a: Act)
    requires Enabled(Run(symbols, acts), a)
    ensures Run(symbols, acts + [a]) == Next(Run(symbols, acts), symbols, a)
  {
    assert (acts + [a])[..|acts + [a]| - 1] == acts;
  }

  lemma {:induction false} CallIsBoundedFrom(symbols: nat, acts: seq<Act>, more: seq<Act>)
    requires StaysInside(symbols, acts, more)
    ensures |more| <= Rank(Run(symbols, acts), symbols) + 3 * Spurious(more)
    decreases |more|
  {
    if more != [] {
      var s, a := Run(symbols, acts), more[0];
      CallIsBoundedFrom(symbols, acts + [a], more[1..]);
      RunKeepsInv(symbols, acts);
      RunSnoc(symbols, acts, a);
      StepLowersRank(s, symbols, a);
    }
  }

  /** From the moment the caller asks for the mutex, the two threads together take fewer than 3 * symbols + 27 steps
      before the call is over, plus at most three for each spurious wakeup. With NeverDeadlocked: every call returns. */
  lemma CallReturns(symbols: nat, acts: seq<Act>, more: seq<Act>)
    requires StaysInside(symbols, acts, more) && Run(symbols, acts).c.Lock?
    ensures |more| < 3 * symbols + 27 + 3 * Spurious(more)
  {
    CallIsBoundedFrom(symbols, acts, more);
    RunKeepsInv(symbols, acts);
  }

  /** The timed lock is attempted with a deadline long past, so it fails whenever the mutex is held:
      this is possible exactly while the worker is inside its test of the counter. */
  lemma LockTimeoutExactly(symbols: nat, acts: seq<Act>)
    requires Run(symbols, acts).c.Lock?
    ensures Enabled(Run(symbols, acts), LockTimeout) <==> Run(symbols, acts).w.WTest?
  {
    RunKeepsInv(symbols, acts);
  }

  /** Such a schedule exists: the worker wakes first and is still testing the counter when the first call arrives. */
  lemma LockTimeoutReachable(symbols: nat)
    ensures Run(symbols, [WorkerStep, Call(0), LockTimeout]).c.ExitTimeout?
  {
    var a := [WorkerStep, Call(0), LockTimeout];
    assert a[..2] == [WorkerStep, Call(0)] && a[..2][..1] == [WorkerStep] && a[..2][..1][..0] == [];
    assert Run(symbols, a[..2][..1]) == WorkerNext(Init(), symbols);
    assert Run(symbols, a[..2]).c.Lock?;
  }
}
