/** The ten-entry rings `subframe_tx` and `harq_ids`, written by the transmit side four subframes ahead and read by the
    receive side four subframes later. Two threads share the work: subframe n belongs to the thread of its parity, which
    receives n and then transmits n + 4. The steps of the two threads interleave freely, up to the order in which the front
    end wakes them. */
module SubframeRing {
  import opened FrameTiming
  import RxTxThreads

  datatype Stage = Receive | Clear | Fill

  /** A thread has completed `rounds` of its subframes. */
  datatype Thread = Thread(rounds: nat, stage: Stage)

  /** The subframe the even or odd thread is working on. */
  function Tick(th: Thread, odd: bool): nat
  {
    RxTxThreads.Tick(th.rounds, odd)
  }

  /** Which subframe of the run an entry was last written for. */
  datatype Entry = Never | Cleared(time: nat) | Filled(time: nat)

  /** A received subframe and the ring as its feedback finds it. */
  datatype Lookup = Lookup(tick: nat, ring: seq<Entry>)

  datatype State = State(ring: seq<Entry>, even: Thread, odd: Thread, lookups: seq<Lookup>)

  function Init(): State
  {
    State(seq(10, _ => Never), Thread(0, Receive), Thread(0, Receive), [])
  }

  /* the index arithmetic of the two sides */

  function FeedbackIndex(subframeRx: nat): nat
  {
    if subframeRx < 4 then subframeRx + 6 else subframeRx - 4
  }

  function TransmitIndex(subframeRx: nat): nat
  {
    (subframeRx + 4) % 10
  }

  function TransmitFrame(frameRx: nat, subframeRx: nat): nat
  {
    if subframeRx > 5 then (frameRx + 1) % FRAMES else frameRx
  }

  /** The ring index of subframe t of the run, counted down by frames. */
  function Index(t: nat): (i: nat)
    ensures i < 10
  {
    if t < 10 then t else Index(t - 10)
  }

  lemma {:induction false} IndexIsSubframe(t: nat)
    ensures Index(t) == SubframeOf(t)
  {
    if t >= 10 {
      IndexIsSubframe(t - 10);
    }
  }

  lemma TransmitArithmetic(t: nat)
    ensures TransmitIndex(SubframeOf(t)) == Index(t + 4)
    ensures TransmitFrame(FrameOf(t), SubframeOf(t)) == FrameOf(t + 4)
  {
    IndexIsSubframe(t + 4);
    var q, r := t / 10, t % 10;
    if r > 5 {
      assert t + 4 == 10 * (q + 1) + (r - 6);
      assert (t + 4) / 10 == q + 1 && (t + 4) % 10 == r - 6;
      assert q == 1024 * (q / 1024) + q % 1024;
      if q % 1024 == 1023 {
        assert q + 1 == 1024 * (q / 1024 + 1);
      }
    } else {
      assert t + 4 == 10 * q + (r + 4);
      assert (t + 4) / 10 == q && (t + 4) % 10 == r + 4;
    }
  }

  lemma FeedbackArithmetic(t: nat)
    ensures FeedbackIndex(SubframeOf(t)) == Index(t + 6)
  {
    IndexIsSubframe(t + 6);
    var q, r := t / 10, t % 10;
    if r < 4 {
      assert t + 6 == 10 * q + (r + 6);
    } else {
      assert t + 6 == 10 * (q + 1) + (r - 4);
    }
  }

  lemma SameIndex(a: nat, b: nat) returns (k: int)
    requires Index(a) == Index(b)
    ensures a - b == 10 * k
  {
    IndexIsSubframe(a);
    IndexIsSubframe(b);
    k := a / 10 - b / 10;
  }

  function ThreadOf(s: State, odd: bool): Thread
  {
    if odd then s.odd else s.even
  }

  function WithThread(s: State, odd: bool, th: Thread): State
  {
    if odd then s.(odd := th) else s.(even := th)
  }

  /** One step of the chosen thread. */
  function Step(s: State, odd: bool): (t: State)
    requires |s.ring| == 10
    ensures |t.ring| == 10
  {
    var th := ThreadOf(s, odd);
    var n := Tick(th, odd);
    var sf := SubframeOf(n);
    match th.stage
    case Receive =>
      WithThread(s, odd, th.(stage := Clear)).(lookups := s.lookups + [Lookup(n, s.ring)])
    case Clear =>
      WithThread(s, odd, th.(stage := Fill)).(ring := s.ring[TransmitIndex(sf) := Cleared(n + 4)])
    case Fill =>
      WithThread(s, odd, Thread(th.rounds + 1, Receive)).(ring := s.ring[TransmitIndex(sf) := Filled(n + 4)])
  }

  /** Any schedule of the two threads. */
  function Run(schedule: seq<bool>): (s: State)
    ensures |s.ring| == 10
  {
    if schedule == [] then Init() else Step(Run(schedule[..|schedule| - 1]), schedule[|schedule| - 1])
  }

  /** The entry for subframe u of the run once its transmission has been prepared; the first one prepared is 4. */
  function Written(u: int): Entry
  {
    if u >= 4 then Filled(u) else Never
  }

  /** Five entries hold the transmissions up to subframe n + 2, or the oldest is being rewritten. */
  predicate Holds(ring: seq<Entry>, n: int, fill: bool, i4: nat, i6: nat, i8: nat, i10: nat, i12: nat)
    requires |ring| == 10 && i4 < 10 && i6 < 10 && i8 < 10 && i10 < 10 && i12 < 10
  {
    && ring[i12] == Written(n + 2)
    && ring[i10] == Written(n)
    && ring[i8] == Written(n - 2)
    && ring[i6] == Written(n - 4)
    && ring[i4] == if fill then Cleared((if n < 0 then 0 else n) + 4) else Written(n - 6)
  }

  /** What the five entries of a thread's own parity hold, given how far that thread alone has come. */
  predicate OwnEntries(s: State, odd: bool)
    requires |s.ring| == 10
  {
    var n := Tick(ThreadOf(s, odd), odd);
    Holds(s.ring, n, ThreadOf(s, odd).stage.Fill?,
          Index(n + 4), Index(n + 6), Index(n + 8), Index(n + 10), Index(n + 12))
  }

  /** At every lookup the reading thread's own entries are complete. */
  predicate LookupsFresh(lookups: seq<Lookup>)
  {
    forall k :: 0 <= k < |lookups| ==> Fresh(lookups[k])
  }

  predicate Fresh(l: Lookup)
  {
    var n := l.tick;
    |l.ring| == 10 && Holds(l.ring, n, false, Index(n + 4), Index(n + 6), Index(n + 8), Index(n + 10), Index(n + 12))
  }

  lemma DifferentIndex(a: nat, b: nat)
    requires 0 < a - b < 10
    ensures Index(a) != Index(b)
  {
    if Index(a) == Index(b) {
      var k := SameIndex(a, b);
    }
  }

  lemma DifferentParity(a: nat, b: nat, h: int)
    requires a - b == 2 * h + 1
    ensures Index(a) != Index(b)
  {
    if Index(a) == Index(b) {
      var k := SameIndex(a, b);
    }
  }

  /** The transmission index is the oldest of five different indices of its parity. */
  lemma FiveIndices(n: nat)
    ensures Index(n + 14) == Index(n + 4)
    ensures Index(n + 4) != Index(n + 6) && Index(n + 4) != Index(n + 8)
    ensures Index(n + 4) != Index(n + 10) && Index(n + 4) != Index(n + 12)
  {
    DifferentIndex(n + 6, n + 4);
    DifferentIndex(n + 8, n + 4);
    DifferentIndex(n + 10, n + 4);
    DifferentIndex(n + 12, n + 4);
  }

  lemma OwnWrite(ring: seq<Entry>, n: nat, fill: bool, i4: nat, i6: nat, i8: nat, i10: nat, i12: nat)
    requires |ring| == 10 && i4 < 10 && i6 < 10 && i8 < 10 && i10 < 10 && i12 < 10
    requires i4 != i6 && i4 != i8 && i4 != i10 && i4 != i12 && Holds(ring, n, fill, i4, i6, i8, i10, i12)
    ensures Holds(ring[i4 := Cleared(n + 4)], n, true, i4, i6, i8, i10, i12)
    ensures Holds(ring[i4 := Filled(n + 4)], n + 2, false, i6, i8, i10, i12, i4)
  {
  }

  lemma OwnStep(s: State, odd: bool)
    requires |s.ring| == 10 && OwnEntries(s, odd)
    ensures OwnEntries(Step(s, odd), odd)
  {
    var th, t := ThreadOf(s, odd), Step(s, odd);
    var n := Tick(th, odd);
    TransmitArithmetic(n);
    FiveIndices(n);
    OwnWrite(s.ring, n, th.stage.Fill?,
             Index(n + 4), Index(n + 6), Index(n + 8), Index(n + 10), Index(n + 12));
    if th.stage.Fill? {
      assert Tick(ThreadOf(t, odd), odd) == n + 2;
    } else {
      assert Tick(ThreadOf(t, odd), odd) == n;
    }
  }

  lemma OtherWrite(ring: seq<Entry>, w: nat, e: Entry, m: nat, fill: bool, i4: nat, i6: nat, i8: nat, i10: nat, i12: nat)
    requires |ring| == 10 && i4 < 10 && i6 < 10 && i8 < 10 && i10 < 10 && i12 < 10 && w < 10
    requires w != i4 && w != i6 && w != i8 && w != i10 && w != i12 && Holds(ring, m, fill, i4, i6, i8, i10, i12)
    ensures Holds(ring[w := e], m, fill, i4, i6, i8, i10, i12)
  {
  }

  lemma OtherIndices(n: nat, m: nat, h: int)
    requires n - m == 2 * h + 1
    ensures Index(n + 4) != Index(m + 4) && Index(n + 4) != Index(m + 6)
    ensures Index(n + 4) != Index(m + 8) && Index(n + 4) != Index(m + 10)
    ensures Index(n + 4) != Index(m + 12)
  {
    DifferentParity(n + 4, m + 4, h);
    DifferentParity(n + 4, m + 6, h - 1);
    DifferentParity(n + 4, m + 8, h - 2);
    DifferentParity(n + 4, m + 10, h - 3);
    DifferentParity(n + 4, m + 12, h - 4);
  }

  lemma StepEffect(s: State, odd: bool)
    requires |s.ring| == 10
    ensures var th := ThreadOf(s, odd);
            var n, t := Tick(th, odd), Step(s, odd);
            && ThreadOf(t, !odd) == ThreadOf(s, !odd)
            && t.ring == if th.stage.Receive? then s.ring
                         else s.ring[Index(n + 4) := if th.stage.Clear? then Cleared(n + 4) else Filled(n + 4)]
  {
    TransmitArithmetic(Tick(ThreadOf(s, odd), odd));
    hide Index, SubframeOf, TransmitIndex, FeedbackIndex;
  }

  lemma OtherStep(s: State, odd: bool)
    requires |s.ring| == 10 && OwnEntries(s, !odd)
    ensures OwnEntries(Step(s, odd), !odd)
  {
    StepEffect(s, odd);
    var th, other := ThreadOf(s, odd), ThreadOf(s, !odd);
    var n, m := Tick(th, odd), Tick(other, !odd);
    OtherIndices(n, m, th.rounds - other.rounds + if odd then 0 else -1);
    hide Index, Holds, Step;
    if !th.stage.Receive? {
      OtherWrite(s.ring, Index(n + 4), if th.stage.Clear? then Cleared(n + 4) else Filled(n + 4), m, other.stage.Fill?,
                 Index(m + 4), Index(m + 6), Index(m + 8), Index(m + 10), Index(m + 12));
    }
  }

  lemma LookupStep(s: State, odd: bool)
    requires |s.ring| == 10 && OwnEntries(s, odd) && LookupsFresh(s.lookups)
    ensures LookupsFresh(Step(s, odd).lookups)
  {
    hide Index, Holds, TransmitIndex, SubframeOf;
    assert ThreadOf(s, odd).stage.Receive? ==> Fresh(Lookup(Tick(ThreadOf(s, odd), odd), s.ring));
  }

  lemma {:induction false} RunInv(schedule: seq<bool>)
    ensures var s := Run(schedule); OwnEntries(s, false) && OwnEntries(s, true) && LookupsFresh(s.lookups)
  {
    if schedule != [] {
      var init, odd := schedule[..|schedule| - 1], schedule[|schedule| - 1];
      RunInv(init);
      var s := Run(init);
      OwnStep(s, odd);
      OtherStep(s, odd);
      LookupStep(s, odd);
    }
  }

  /** Whatever the schedule, even if one thread ran ahead of the other, the FDD feedback received in subframe n is
      looked up in the entry completely written for the transmission in subframe n - 4. */
  lemma FeedbackReadsItsOwnTransmission(schedule: seq<bool>, k: nat)
    requires k < |Run(schedule).lookups|
    ensures var Lookup(n, ring) := Run(schedule).lookups[k];
            |ring| == 10 && ring[FeedbackIndex(SubframeOf(n))] == if n >= 8 then Filled(n - 4) else Never
  {
    RunInv(schedule);
    assert Fresh(Run(schedule).lookups[k]);
    FeedbackArithmetic(Run(schedule).lookups[k].tick);
  }

  /** The parity split is what makes this safe: the only write that could spoil the entry read in subframe n is the one
      made while handling subframe n + 2 or later, by the same thread and after that read. */
  lemma OnlySameThreadOverwrites(n: nat, m: nat)
    requires n >= 8 && TransmitIndex(SubframeOf(m)) == FeedbackIndex(SubframeOf(n))
    ensures exists k: int :: m == n + 2 + 10 * k
    ensures n - 8 < m ==> m >= n + 2
  {
    TransmitArithmetic(m);
    FeedbackArithmetic(n);
    var k := SameIndex(m + 4, n + 6);
    assert m == n + 2 + 10 * k;
  }

  /* ---------- reports with another delay ---------- */

  /** The entry a report looks up that comes `delay` subframes after the block. */
  function EntryFor(l: Lookup, delay: nat): Entry
    requires |l.ring| == 10 && delay <= 10
  {
    l.ring[Index(l.tick + 20 - delay)]
  }

  /** It is the one written for that block. */
  predicate ReadsRight(l: Lookup, delay: nat)
    requires delay <= 10
  {
    |l.ring| == 10 && EntryFor(l, delay) == Written(l.tick - delay)
  }

  lemma EvenDelay(l: Lookup, delay: nat)
    requires Fresh(l) && 2 <= delay <= 10 && delay % 2 == 0
    ensures EntryFor(l, delay) == Written(if delay <= 6 then l.tick - delay else l.tick - delay + 10)
  {
    var n := l.tick;
    assert Index(n + 18) == Index(n + 8) && Index(n + 16) == Index(n + 6) && Index(n + 14) == Index(n + 4);
    hide Index;
  }

  /* schedules the front end allows */

  predicate Allowed(s: State, odd: bool)
  {
    ThreadOf(s, odd).stage.Receive? ==> RxTxThreads.MayStart(s.even.rounds, s.odd.rounds, odd)
  }

  predicate Possible(schedule: seq<bool>)
  {
    schedule == []
    || (Possible(schedule[..|schedule| - 1]) && Allowed(Run(schedule[..|schedule| - 1]), schedule[|schedule| - 1]))
  }

  predicate Close(s: State)
  {
    RxTxThreads.InStep(s.even.rounds, !s.even.stage.Receive?, s.odd.rounds, !s.odd.stage.Receive?)
  }

  /** The two newest entries of the other thread before subframe n that cannot have been written again. */
  predicate Beside(l: Lookup)
  {
    && |l.ring| == 10
    && l.ring[Index(l.tick + 9)] == Written(l.tick - 1) && l.ring[Index(l.tick + 7)] == Written(l.tick - 3)
  }

  lemma StartFindsOther(s: State, odd: bool)
    requires |s.ring| == 10 && OwnEntries(s, !odd) && Close(s) && Allowed(s, odd) && ThreadOf(s, odd).stage.Receive?
    ensures Beside(Lookup(Tick(ThreadOf(s, odd), odd), s.ring))
  {
    RxTxThreads.OtherIsNear(s.even.rounds, !s.even.stage.Receive?, s.odd.rounds, !s.odd.stage.Receive?, odd);
    var n, m := Tick(ThreadOf(s, odd), odd), Tick(ThreadOf(s, !odd), !odd);
    assert m + 1 == n || m == n + 1 || (m == n + 3 && ThreadOf(s, !odd).stage.Receive?);
    hide Index;
  }

  lemma StepStaysClose(s: State, odd: bool)
    requires |s.ring| == 10 && Close(s) && Allowed(s, odd)
    ensures Close(Step(s, odd))
  {
    hide TransmitIndex, SubframeOf;
  }

  lemma {:induction false} PossibleRun(schedule: seq<bool>)
    requires Possible(schedule)
    ensures Close(Run(schedule)) && forall k :: 0 <= k < |Run(schedule).lookups| ==> Beside(Run(schedule).lookups[k])
  {
    if schedule != [] {
      var init, odd := schedule[..|schedule| - 1], schedule[|schedule| - 1];
      PossibleRun(init);
      RunInv(init);
      StepStaysClose(Run(init), odd);
      if ThreadOf(Run(init), odd).stage.Receive? {
        StartFindsOther(Run(init), odd);
      }
    }
    hide Beside, Allowed, OwnEntries, TransmitIndex, SubframeOf;
  }

  lemma OddDelay(l: Lookup, delay: nat)
    requires Beside(l) && (delay == 1 || delay == 3)
    ensures ReadsRight(l, delay)
  {
    assert Index(l.tick + 19) == Index(l.tick + 9) && Index(l.tick + 17) == Index(l.tick + 7);
    hide Index;
  }

  /* a schedule in which the next thread clears its entry before this one receives */

  lemma Snoc(schedule: seq<bool>, odd: bool)
    ensures Run(schedule + [odd]) == Step(Run(schedule), odd)
    ensures Possible(schedule + [odd]) <==> Possible(schedule) && Allowed(Run(schedule), odd)
  {
    assert (schedule + [odd])[..|schedule|] == schedule;
  }

  predicate IsOdd(n: nat) { n % 2 == 1 }

  /** Subframes 0 to n - 1, one after the other. */
  function InOrder(n: nat): seq<bool>
  {
    if n == 0 then [] else InOrder(n - 1) + [IsOdd(n - 1)] + [IsOdd(n - 1)] + [IsOdd(n - 1)]
  }

  predicate BeforeTick(s: State, n: nat)
  {
    s.even == Thread((n + 1) / 2, Receive) && s.odd == Thread(n / 2, Receive)
  }

  lemma WholeTick(s: State, n: nat)
    requires |s.ring| == 10 && BeforeTick(s, n)
    ensures var odd := IsOdd(n);
            var t := Step(s, odd);
            var u := Step(t, odd);
            Allowed(s, odd) && Allowed(t, odd) && Allowed(u, odd) && BeforeTick(Step(u, odd), n + 1)
  {
    hide TransmitIndex, SubframeOf;
  }

  lemma {:induction false} InOrderRuns(n: nat)
    ensures Possible(InOrder(n)) && BeforeTick(Run(InOrder(n)), n)
  {
    hide Step, Allowed, BeforeTick, IsOdd;
    if n == 0 {
      StartInOrder();
    } else {
      var before, odd := InOrder(n - 1), IsOdd(n - 1);
      InOrderRuns(n - 1);
      WholeTick(Run(before), n - 1);
      Snoc(before, odd);
      Snoc(before + [odd], odd);
      Snoc(before + [odd] + [odd], odd);
      assert InOrder(n) == before + [odd] + [odd] + [odd];
    }
  }

  lemma StartInOrder()
    ensures Possible(InOrder(0)) && BeforeTick(Run(InOrder(0)), 0)
  {
  }

  function Overtaken(n: nat): seq<bool>
  {
    InOrder(n) + [!IsOdd(n)] + [!IsOdd(n)] + [IsOdd(n)]
  }

  lemma Overtake(s: State, n: nat)
    requires |s.ring| == 10 && BeforeTick(s, n)
    ensures var odd := IsOdd(n);
            var t := Step(s, !odd);
            var u := Step(t, !odd);
            var v := Step(u, odd);
            && Allowed(s, !odd) && Allowed(t, !odd) && Allowed(u, odd)
            && ThreadOf(v, !odd).stage == Fill && Tick(ThreadOf(v, !odd), !odd) == n + 1
            && |v.lookups| > 0 && v.lookups[|v.lookups| - 1] == Lookup(n, v.ring)
  {
    hide TransmitIndex, SubframeOf;
  }

  lemma OvertakenRuns(n: nat)
    ensures var s := Run(Overtaken(n));
            && Possible(Overtaken(n)) && ThreadOf(s, !IsOdd(n)).stage == Fill && Tick(ThreadOf(s, !IsOdd(n)), !IsOdd(n)) == n + 1
            && |s.lookups| > 0 && s.lookups[|s.lookups| - 1] == Lookup(n, s.ring)
  {
    var before, odd := InOrder(n), IsOdd(n);
    InOrderRuns(n);
    Overtake(Run(before), n);
    Snoc(before, !odd);
    Snoc(before + [!odd], !odd);
    Snoc(before + [!odd] + [!odd], odd);
    hide Step, Allowed, InOrder;
  }

  /** What the overtaken lookup finds for the other delays. */
  lemma OvertakenIsWrong(l: Lookup, delay: nat)
    requires l.tick >= 10 && 1 <= delay <= 10 && (delay > 6 || delay == 5) && Fresh(l)
    requires var n := l.tick;
             Holds(l.ring, n + 1, true, Index(n + 5), Index(n + 7), Index(n + 9), Index(n + 11), Index(n + 13))
    ensures !ReadsRight(l, delay)
  {
    var n := l.tick;
    assert Index(n + 15) == Index(n + 5);
    if delay % 2 == 0 {
      EvenDelay(l, delay);
    }
    hide Index, Fresh;
  }

  lemma OvertakenReads(n: nat, delay: nat)
    requires n >= 10 && 1 <= delay <= 10 && (delay > 6 || delay == 5)
    ensures var s := Run(Overtaken(n));
            |s.lookups| > 0 && s.lookups[|s.lookups| - 1].tick == n && !ReadsRight(s.lookups[|s.lookups| - 1], delay)
  {
    hide Run, Overtaken, Holds, Index, ReadsRight, Fresh;
    OvertakenRuns(n);
    RunInv(Overtaken(n));
    var s := Run(Overtaken(n));
    var l := s.lookups[|s.lookups| - 1];
    assert Fresh(l) && OwnEntries(s, !IsOdd(n));
    OvertakenIsWrong(l, delay);
  }

  /** Under every schedule the front end allows, every report received in subframe number sf of a frame, `delay` subframes after
      the block, reads the right entry. */
  ghost predicate AllRight(delay: nat, sf: nat)
    requires delay <= 10
  {
    forall schedule, k | Possible(schedule) && 0 <= k < |Run(schedule).lookups|
      && SubframeOf(Run(schedule).lookups[k].tick) == sf :: ReadsRight(Run(schedule).lookups[k], delay)
  }

  /** That is so exactly for delays of at most six but not five: after seven subframes the entry has been written again, and
      after five the other thread may have begun to. */
  lemma ReadsRightExactly(delay: nat, sf: nat)
    requires 1 <= delay <= 10 && sf < 10
    ensures AllRight(delay, sf) <==> delay <= 6 && delay != 5
  {
    if delay <= 6 && delay != 5 {
      forall schedule, k | Possible(schedule) && 0 <= k < |Run(schedule).lookups|
        ensures ReadsRight(Run(schedule).lookups[k], delay)
      {
        AlwaysRight(schedule, k, delay);
      }
    } else {
      SometimesWrong(delay, sf);
    }
    hide Run, Possible, ReadsRight, SubframeOf;
  }

  lemma SometimesWrong(delay: nat, sf: nat)
    requires 1 <= delay <= 10 && sf < 10 && (delay > 6 || delay == 5)
    ensures !AllRight(delay, sf)
  {
    hide Run, Possible, Overtaken, ReadsRight;
    var n := sf + 10;
    assert SubframeOf(n) == sf;
    OvertakenRuns(n);
    OvertakenReads(n, delay);
    var schedule := Overtaken(n);
    var k := |Run(schedule).lookups| - 1;
    assert !ReadsRight(Run(schedule).lookups[k], delay);
  }

  lemma RightFor(l: Lookup, delay: nat)
    requires Fresh(l) && Beside(l) && 1 <= delay <= 6 && delay != 5
    ensures ReadsRight(l, delay)
  {
    if delay % 2 == 0 {
      EvenDelay(l, delay);
    } else {
      OddDelay(l, delay);
    }
    hide Index, Holds, Beside;
  }

  lemma AlwaysRight(schedule: seq<bool>, k: nat, delay: nat)
    requires Possible(schedule) && k < |Run(schedule).lookups| && 1 <= delay <= 6 && delay != 5
    ensures ReadsRight(Run(schedule).lookups[k], delay)
  {
    hide Run, Possible, Index, Holds, Fresh, Beside, ReadsRight, OwnEntries;
    RunInv(schedule);
    PossibleRun(schedule);
    RightFor(Run(schedule).lookups[k], delay);
  }
}
