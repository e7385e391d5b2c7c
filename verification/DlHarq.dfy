/** The base station's downlink HARQ processes of one user, driven by grants and by the feedback of the user. */
module DlHarq {
  import opened Options
  import opened FrameTiming
  import opened AckTables

  datatype Status = Idle | Active

  datatype Process = Process(status: Status, round: nat, tbs: nat)

  datatype Limits = Limits(mDlHarq: nat, mLimit: nat, errorThreshold: nat, window: nat)

  predicate ValidLimits(p: Limits)
  {
    p.mDlHarq <= 8 && 1 <= p.mLimit <= 8
  }

  /** The user's DLSCH record and the statistics kept with it. */
  datatype Dlsch = Dlsch(
    processes: seq<Process>,       // 8
    subframeTx: seq<bool>,         // 10: a block was sent in this subframe
    harqIds: seq<nat>,             // 10: the process it belongs to
    nak: seq<seq<nat>>,            // 8 x 8, by process and round
    ack: seq<seq<nat>>,
    l2Errors: seq<nat>,            // 8
    totalTbs: nat,
    nakRound0: nat,
    mcsOffset: int,
    slidingCount: nat)

  /** A received report: bits on PUSCH, or bits on PUCCH with the way they were selected. */
  datatype Report = Report(pusch: bool, oAck0: bool, oAck1: bool, payload0: bool, payload1: bool,
                           sel: nat, sr: bool, bundling: bool)

  predicate Valid(p: Limits, s: Dlsch)
  {
    && ValidLimits(p)
    && |s.processes| == 8 && |s.subframeTx| == 10 && |s.harqIds| == 10
    && |s.nak| == 8 && |s.ack| == 8 && |s.l2Errors| == 8
    && (forall k :: 0 <= k < 8 ==> |s.nak[k]| == 8)
    && (forall k :: 0 <= k < 8 ==> |s.ack[k]| == 8)
    && (forall k :: 0 <= k < 8 ==>
          s.processes[k].round < p.mLimit && (s.processes[k].status.Idle? ==> s.processes[k].round == 0))
  }

  function Fresh(p: Limits): Dlsch
  {
    var zeros := seq(8, _ => 0);
    Dlsch(seq(8, _ => Process(Idle, 0, 0)), seq(10, _ => false), seq(10, _ => p.mDlHarq),
          seq(8, _ => zeros), seq(8, _ => zeros), zeros, 0, 0, 0, 0)
  }

  function Bump(table: seq<seq<nat>>, pid: nat, round: nat): seq<seq<nat>>
    requires pid < |table| && round < |table[pid]|
  {
    table[pid := table[pid][round := table[pid][round] + 1]]
  }

  /** Rate adaptation after each report: returns the first-round error count, the offset and the block count. */
  function Adapt(p: Limits, nakRound0: nat, offset: int, sliding: nat): (nat, int, nat)
  {
    var o1 := if nakRound0 > p.errorThreshold then (if offset == 1 then 0 else -1) else offset;
    if sliding != p.window then (nakRound0, o1, sliding)
    else
      var o2 := if o1 == 0 && nakRound0 < 2 then 1 else o1;
      var o3 := if o2 == 1 && nakRound0 > 2 then 0 else o2;
      var o4 := if o3 == 0 && nakRound0 > 2 then -1 else o3;
      var o5 := if o4 == -1 && nakRound0 < 2 then 0 else o4;
      (0, o5, 0)
  }

  /** The process a report for downlink subframe `dl` is about, if it is still waiting for one. */
  predicate Waiting(p: Limits, s: Dlsch, dl: nat)
    requires Valid(p, s) && dl < 10
  {
    s.harqIds[dl] < p.mDlHarq && s.processes[s.harqIds[dl]].status.Active?
  }

  function Nacked(p: Limits, s: Dlsch, dl: nat): Dlsch
    requires Valid(p, s) && dl < 10 && Waiting(p, s, dl)
  {
    var pid := s.harqIds[dl];
    var proc := s.processes[pid];
    var t := s.(nak := Bump(s.nak, pid, proc.round), nakRound0 := s.nakRound0 + if proc.round == 0 then 1 else 0);
    if proc.round + 1 == p.mLimit then
      t.(processes := s.processes[pid := proc.(status := Idle, round := 0)],
         l2Errors := s.l2Errors[pid := s.l2Errors[pid] + 1],
         harqIds := s.harqIds[dl := p.mDlHarq])
    else
      t.(processes := s.processes[pid := proc.(round := proc.round + 1)])
  }

  function Acked(p: Limits, s: Dlsch, dl: nat): Dlsch
    requires Valid(p, s) && dl < 10 && Waiting(p, s, dl)
  {
    var pid := s.harqIds[dl];
    var proc := s.processes[pid];
    s.(ack := Bump(s.ack, pid, proc.round),
       processes := s.processes[pid := proc.(status := Idle, round := 0)],
       harqIds := s.harqIds[dl := p.mDlHarq],
       totalTbs := s.totalTbs + proc.tbs)
  }

  /** One bit for one downlink subframe. */
  function Apply(p: Limits, s: Dlsch, dl: nat, bit: bool): Dlsch
    requires Valid(p, s) && dl < 10
  {
    if !Waiting(p, s, dl) then s
    else
      var t := if bit then Acked(p, s, dl) else Nacked(p, s, dl);
      var (n, o, c) := Adapt(p, t.nakRound0, t.mcsOffset, t.slidingCount);
      t.(nakRound0 := n, mcsOffset := o, slidingCount := c)
  }

  function Allocated(d: Duplex, subframe: nat, tx: seq<bool>, m: nat): nat
    requires Supported(d) && subframe < 10 && |tx| == 10 && m <= UlAckM(d, subframe)
  {
    if m == 0 then 0
    else Allocated(d, subframe, tx, m - 1) + if tx[UlAckDlSubframe(d, subframe, m - 1)] then 1 else 0
  }

  predicate Multiplexed(rep: Report) { !rep.pusch && rep.sel != 2 }

  /** The acknowledgement count carried by a positive scheduling request, table 7.3 of the code. */
  function SrCount(d: Duplex, subframe: nat, rep: Report): nat
  {
    if d.Tdd? && UlAckM(d, subframe) == 2 && rep.payload0 then (if rep.payload1 then 1 else 2) else 0
  }

  /** The bit used for the m-th subframe of the set, being the mp-th scheduled one. */
  function AckBit(d: Duplex, rep: Report, allAcked: bool, mp: nat): bool
  {
    if Multiplexed(rep) then rep.sr && allAcked
    else if rep.pusch then (if d.Fdd? || rep.bundling || mp == 0 then rep.oAck0 else rep.oAck1)
    else rep.payload0
  }

  function AllAckedFlag(d: Duplex, subframe: nat, tx: seq<bool>, rep: Report): bool
    requires Supported(d) && subframe < 10 && |tx| == 10
  {
    rep.sr && Multiplexed(rep) ==> Allocated(d, subframe, tx, UlAckM(d, subframe)) == SrCount(d, subframe, rep)
  }

  /** How many of the first m subframes of the set were scheduled. */
  function BitIndex(rep: Report, scheduledBefore: nat, m: nat): nat
  {
    if rep.pusch then scheduledBefore else m
  }

  /** The bit used for the m-th subframe of the set. */
  function BitFor(d: Duplex, subframe: nat, tx: seq<bool>, rep: Report, m: nat): bool
    requires Supported(d) && subframe < 10 && |tx| == 10 && m < UlAckM(d, subframe)
  {
    AckBit(d, rep, AllAckedFlag(d, subframe, tx, rep), BitIndex(rep, Allocated(d, subframe, tx, m), m))
  }

  /** The state after the first m subframes of the set. */
  function FeedbackUpTo(p: Limits, d: Duplex, s: Dlsch, subframe: nat, rep: Report, m: nat): (t: Dlsch)
    requires Valid(p, s) && Supported(d) && subframe < 10 && m <= UlAckM(d, subframe)
    ensures Valid(p, t) && t.subframeTx == s.subframeTx
  {
    if m == 0 then s
    else
      var t := FeedbackUpTo(p, d, s, subframe, rep, m - 1);
      var dl := UlAckDlSubframe(d, subframe, m - 1);
      DlSubframeInRange(d, subframe, m - 1);
      if !s.subframeTx[dl] then t
      else
        ApplyKeepsValid(p, t, dl, BitFor(d, subframe, s.subframeTx, rep, m - 1));
        Apply(p, t, dl, BitFor(d, subframe, s.subframeTx, rep, m - 1))
  }

  function Feedback(p: Limits, d: Duplex, s: Dlsch, subframe: nat, rep: Report): Dlsch
    requires Valid(p, s) && Supported(d) && subframe < 10
  {
    FeedbackUpTo(p, d, s, subframe, rep, UlAckM(d, subframe))
  }

  lemma ApplyKeepsValid(p: Limits, s: Dlsch, dl: nat, bit: bool)
    requires Valid(p, s) && dl < 10
    ensures Valid(p, Apply(p, s, dl, bit)) && Apply(p, s, dl, bit).subframeTx == s.subframeTx
  {
  }

  /** A downlink grant. A process that is in the middle of its rounds keeps its status and block size. */
  datatype Grant = Grant(pid: nat, tbs: nat)

  /** The transmit side of a subframe: its old entry is cleared, then a grant may fill it. */
  function Transmit(p: Limits, s: Dlsch, subframe: nat, grant: Option<Grant>): (t: Dlsch)
    requires Valid(p, s) && subframe < 10
    ensures Valid(p, t)
  {
    var cleared := s.(subframeTx := s.subframeTx[subframe := false]);
    if grant.None? || grant.value.pid >= 8 then cleared
    else
      var pid := grant.value.pid;
      var proc := s.processes[pid];
      cleared.(subframeTx := s.subframeTx[subframe := true],
               harqIds := s.harqIds[subframe := pid],
               processes := if proc.round == 0 then s.processes[pid := Process(Active, 0, grant.value.tbs)] else s.processes,
               slidingCount := s.slidingCount + 1)
  }

  /** What one bit does to the block: an acknowledged one is closed, a refused one goes to its next round with its size, or is
      dropped and counted as lost after its last. A closed or dropped block's ring entry no longer names a process. */
  lemma BitSettles(p: Limits, s: Dlsch, dl: nat, bit: bool, k: nat)
    requires Valid(p, s) && dl < 10 && Waiting(p, s, dl) && k < 8
    ensures var pid, t := s.harqIds[dl], Apply(p, s, dl, bit);
            var x, y := s.processes[pid], t.processes[pid];
            var over := bit || x.round == p.mLimit - 1;
            && y == Process(if over then Idle else Active, if over then 0 else x.round + 1, x.tbs)
            && t.harqIds == (if over then s.harqIds[dl := p.mDlHarq] else s.harqIds)
            && (Valid(p, t) && over ==> !Waiting(p, t, dl))
            && t.l2Errors[pid] == s.l2Errors[pid] + (if over && !bit then 1 else 0)
            && t.totalTbs == s.totalTbs + (if bit then x.tbs else 0)
            && (k != pid ==>
                  t.processes[k] == s.processes[k] && t.ack[k] == s.ack[k] && t.nak[k] == s.nak[k] && t.l2Errors[k] == s.l2Errors[k])
  {
    hide Adapt;
  }

  lemma BitKeepsSize(p: Limits, s: Dlsch, dl: nat, bit: bool, pid: nat)
    requires Valid(p, s) && dl < 10 && pid < 8
    ensures Valid(p, Apply(p, s, dl, bit)) && Apply(p, s, dl, bit).processes[pid].tbs == s.processes[pid].tbs
  {
    ApplyKeepsValid(p, s, dl, bit);
    if Waiting(p, s, dl) {
      BitSettles(p, s, dl, bit, pid);
    }
    hide Apply;
  }

  /** No report changes the size of a block. */
  lemma {:induction false} FeedbackKeepsSize(p: Limits, d: Duplex, s: Dlsch, subframe: nat, rep: Report, m: nat, pid: nat)
    requires Valid(p, s) && Supported(d) && subframe < 10 && m <= UlAckM(d, subframe) && pid < 8
    ensures FeedbackUpTo(p, d, s, subframe, rep, m).processes[pid].tbs == s.processes[pid].tbs
  {
    if m > 0 {
      FeedbackKeepsSize(p, d, s, subframe, rep, m - 1, pid);
      DlSubframeInRange(d, subframe, m - 1);
      BitKeepsSize(p, FeedbackUpTo(p, d, s, subframe, rep, m - 1), UlAckDlSubframe(d, subframe, m - 1),
                   BitFor(d, subframe, s.subframeTx, rep, m - 1), pid);
    }
    hide Apply, BitFor;
  }

  /* ---------- flow conservation ---------- */

  function InFlight(proc: Process, round: nat): nat
  {
    if proc.status.Active? && proc.round == round then 1 else 0
  }

  /** Every block refused in a round is, in the next round, acknowledged, refused again or still in flight;
      the blocks refused in the last round are the ones lost. */
  predicate FlowOf(p: Limits, proc: Process, nak: seq<nat>, ack: seq<nat>, lost: nat)
    requires |nak| == 8 && |ack| == 8 && ValidLimits(p)
  {
    && (forall r :: 1 <= r < p.mLimit ==> nak[r - 1] == ack[r] + nak[r] + InFlight(proc, r))
    && nak[p.mLimit - 1] == lost
  }

  predicate Flow(p: Limits, s: Dlsch)
    requires Valid(p, s)
  {
    forall pid :: 0 <= pid < 8 ==> FlowOf(p, s.processes[pid], s.nak[pid], s.ack[pid], s.l2Errors[pid])
  }

  lemma ApplyKeepsFlow(p: Limits, s: Dlsch, dl: nat, bit: bool)
    requires Valid(p, s) && dl < 10 && Flow(p, s)
    ensures Valid(p, Apply(p, s, dl, bit)) && Flow(p, Apply(p, s, dl, bit))
  {
    ApplyKeepsValid(p, s, dl, bit);
    var t := Apply(p, s, dl, bit);
    if Waiting(p, s, dl) {
      var pid := s.harqIds[dl];
      assert FlowOf(p, s.processes[pid], s.nak[pid], s.ack[pid], s.l2Errors[pid]);
      assert FlowOf(p, t.processes[pid], t.nak[pid], t.ack[pid], t.l2Errors[pid]);
      forall k | 0 <= k < 8 && k != pid
        ensures FlowOf(p, t.processes[k], t.nak[k], t.ack[k], t.l2Errors[k])
      {
        assert FlowOf(p, s.processes[k], s.nak[k], s.ack[k], s.l2Errors[k]);
      }
    }
  }

  lemma {:induction false} FeedbackKeepsFlow(p: Limits, d: Duplex, s: Dlsch, subframe: nat, rep: Report, m: nat)
    requires Valid(p, s) && Supported(d) && subframe < 10 && m <= UlAckM(d, subframe) && Flow(p, s)
    ensures Flow(p, FeedbackUpTo(p, d, s, subframe, rep, m))
  {
    if m > 0 {
      FeedbackKeepsFlow(p, d, s, subframe, rep, m - 1);
      DlSubframeInRange(d, subframe, m - 1);
      ApplyKeepsFlow(p, FeedbackUpTo(p, d, s, subframe, rep, m - 1), UlAckDlSubframe(d, subframe, m - 1),
                     BitFor(d, subframe, s.subframeTx, rep, m - 1));
    }
  }

  lemma TransmitKeepsFlow(p: Limits, s: Dlsch, subframe: nat, grant: Option<Grant>)
    requires Valid(p, s) && subframe < 10 && Flow(p, s)
    ensures Flow(p, Transmit(p, s, subframe, grant))
  {
    var t := Transmit(p, s, subframe, grant);
    forall k | 0 <= k < 8
      ensures FlowOf(p, t.processes[k], t.nak[k], t.ack[k], t.l2Errors[k])
    {
      assert FlowOf(p, s.processes[k], s.nak[k], s.ack[k], s.l2Errors[k]);
    }
  }

  /* ---------- runs ---------- */

  datatype Event =
    | Tx(subframe: nat, grant: Option<Grant>)
    | Rx(rxSubframe: nat, report: Report)
    | RateReport     // every hundredth frame: the bits acknowledged since the last one

  predicate ValidEvent(e: Event)
  {
    match e
    case Tx(sf, _) => sf < 10
    case Rx(sf, _) => sf < 10
    case RateReport => true
  }

  /** total_TBS_last, the reports made and the sizes of the blocks closed by an acknowledgement ride along with the state. */
  datatype Ledger = Ledger(s: Dlsch, lastTotal: nat, bitrates: seq<int>, ackedBlocks: seq<nat>)

  /** The blocks an Rx event closes as acknowledged, in order. */
  function ClosedBlocks(p: Limits, d: Duplex, s: Dlsch, subframe: nat, rep: Report, m: nat): seq<nat>
    requires Valid(p, s) && Supported(d) && subframe < 10 && m <= UlAckM(d, subframe)
  {
    if m == 0 then []
    else
      var t := FeedbackUpTo(p, d, s, subframe, rep, m - 1);
      DlSubframeInRange(d, subframe, m - 1);
      var dl := UlAckDlSubframe(d, subframe, m - 1);
      var before := ClosedBlocks(p, d, s, subframe, rep, m - 1);
      if s.subframeTx[dl] && Waiting(p, t, dl) && BitFor(d, subframe, s.subframeTx, rep, m - 1)
      then before + [t.processes[t.harqIds[dl]].tbs]
      else before
  }

  function Step(p: Limits, d: Duplex, l: Ledger, e: Event): (t: Ledger)
    requires Valid(p, l.s) && Supported(d) && ValidEvent(e)
    ensures Valid(p, t.s)
  {
    match e
    case Tx(sf, grant) => l.(s := Transmit(p, l.s, sf, grant))
    case Rx(sf, rep) =>
      l.(s := Feedback(p, d, l.s, sf, rep),
         ackedBlocks := l.ackedBlocks + ClosedBlocks(p, d, l.s, sf, rep, UlAckM(d, sf)))
    case RateReport => l.(bitrates := l.bitrates + [l.s.totalTbs - l.lastTotal], lastTotal := l.s.totalTbs)
  }

  function Run(p: Limits, d: Duplex, events: seq<Event>): (t: Ledger)
    requires ValidLimits(p) && Supported(d) && forall k :: 0 <= k < |events| ==> ValidEvent(events[k])
    ensures Valid(p, t.s)
  {
    if events == [] then Ledger(Fresh(p), 0, [], [])
    else Step(p, d, Run(p, d, events[..|events| - 1]), events[|events| - 1])
  }

  function Sum(xs: seq<int>): int
  {
    if xs == [] then 0 else Sum(xs[..|xs| - 1]) + xs[|xs| - 1]
  }

  lemma {:induction false} SumConcat(xs: seq<int>, ys: seq<int>)
    ensures Sum(xs + ys) == Sum(xs) + Sum(ys)
  {
    if ys == [] {
      assert xs + ys == xs;
    } else {
      SumConcat(xs, ys[..|ys| - 1]);
      assert (xs + ys)[..|xs + ys| - 1] == xs + ys[..|ys| - 1];
    }
  }

  lemma ApplyTotal(p: Limits, s: Dlsch, dl: nat, bit: bool)
    requires Valid(p, s) && dl < 10
    ensures Apply(p, s, dl, bit).totalTbs
         == s.totalTbs + if Waiting(p, s, dl) && bit then s.processes[s.harqIds[dl]].tbs else 0
  {
  }

  lemma SumSnoc(xs: seq<int>, x: int)
    ensures Sum(xs + [x]) == Sum(xs) + x
  {
    assert (xs + [x])[..|xs + [x]| - 1] == xs;
  }

  lemma {:induction false} ClosedBlocksCounted(p: Limits, d: Duplex, s: Dlsch, subframe: nat, rep: Report, m: nat)
    requires Valid(p, s) && Supported(d) && subframe < 10 && m <= UlAckM(d, subframe)
    ensures FeedbackUpTo(p, d, s, subframe, rep, m).totalTbs
         == s.totalTbs + Sum(ClosedBlocks(p, d, s, subframe, rep, m))
  {
    if m > 0 {
      ClosedBlocksCounted(p, d, s, subframe, rep, m - 1);
      DlSubframeInRange(d, subframe, m - 1);
      ClosedBlocksStep(p, d, s, FeedbackUpTo(p, d, s, subframe, rep, m - 1), FeedbackUpTo(p, d, s, subframe, rep, m),
                       ClosedBlocks(p, d, s, subframe, rep, m - 1), ClosedBlocks(p, d, s, subframe, rep, m),
                       UlAckDlSubframe(d, subframe, m - 1), BitFor(d, subframe, s.subframeTx, rep, m - 1));
    }
  }

  lemma ClosedBlocksStep(p: Limits, d: Duplex, s: Dlsch, t: Dlsch, u: Dlsch, before: seq<nat>, after: seq<nat>,
                         dl: nat, bit: bool)
    requires Valid(p, s) && Valid(p, t) && dl < 10
    requires u == if s.subframeTx[dl] then Apply(p, t, dl, bit) else t
    requires after == if s.subframeTx[dl] && Waiting(p, t, dl) && bit then before + [t.processes[t.harqIds[dl]].tbs] else before
    ensures u.totalTbs - t.totalTbs == Sum(after) - Sum(before)
  {
    ApplyTotal(p, t, dl, bit);
    if Waiting(p, t, dl) {
      SumSnoc(before, t.processes[t.harqIds[dl]].tbs);
    }
  }

  /** Over every run from idle processes and zeroed statistics: rounds stay below the limit, blocks are conserved round by
      round, total_TBS is the sum of the acknowledged blocks, and the bit rates reported so far add up to what had been
      acknowledged at the last report. */
  lemma {:induction false} RunConserves(p: Limits, d: Duplex, events: seq<Event>)
    requires ValidLimits(p) && Supported(d) && forall k :: 0 <= k < |events| ==> ValidEvent(events[k])
    ensures var l := Run(p, d, events);
            && Flow(p, l.s)
            && l.s.totalTbs == Sum(l.ackedBlocks)
            && Sum(l.bitrates) == l.lastTotal
            && Sum(l.bitrates) + (l.s.totalTbs - l.lastTotal) == Sum(l.ackedBlocks)
  {
    if events != [] {
      var init, e := events[..|events| - 1], events[|events| - 1];
      RunConserves(p, d, init);
      var l := Run(p, d, init);
      match e
      case Tx(sf, grant) => TransmitKeepsFlow(p, l.s, sf, grant);
      case Rx(sf, rep) =>
        FeedbackKeepsFlow(p, d, l.s, sf, rep, UlAckM(d, sf));
        ClosedBlocksCounted(p, d, l.s, sf, rep, UlAckM(d, sf));
        SumConcat(l.ackedBlocks, ClosedBlocks(p, d, l.s, sf, rep, UlAckM(d, sf)));
      case RateReport =>
        SumSnoc(l.bitrates, l.s.totalTbs - l.lastTotal);
    }
  }

  /* ---------- rate adaptation ---------- */

  function Lowered(offset: int): int { if offset > -1 then offset - 1 else -1 }

  function Raised(offset: int): int { if offset < 1 then offset + 1 else 1 }

  predicate InRange(offset: int) { -1 <= offset <= 1 }

  predicate Square(table: seq<seq<nat>>)
  {
    |table| == 8 && forall k :: 0 <= k < 8 ==> |table[k]| == 8
  }

  function FirstColumn(table: seq<seq<nat>>): nat
    requires Square(table)
  {
    table[0][0] + table[1][0] + table[2][0] + table[3][0] + table[4][0] + table[5][0] + table[6][0] + table[7][0]
  }

  lemma BumpColumn(table: seq<seq<nat>>, pid: nat, round: nat)
    requires Square(table) && pid < 8 && round < 8
    ensures var more := Bump(table, pid, round);
            Square(more) && FirstColumn(more) == FirstColumn(table) + if round == 0 then 1 else 0
  {
    assert pid == 0 || pid == 1 || pid == 2 || pid == 3 || pid == 4 || pid == 5 || pid == 6 || pid == 7;
  }

  /** First-round refusals counted so far, over all processes. */
  function FirstRoundNaks(s: Dlsch): nat
    requires Square(s.nak)
  {
    FirstColumn(s.nak)
  }

  lemma AdaptMeans(p: Limits, naks: nat, offset: int, sent: nat)
    requires InRange(offset)
    ensures var (n, o, c) := Adapt(p, naks, offset, sent);
            var lowered := if naks > p.errorThreshold then Lowered(offset) else offset;
            && InRange(o)
            && (sent != p.window ==> n == naks && c == sent && o == lowered)
            && (sent == p.window ==>
                  n == 0 && c == 0 && o == if naks < 2 then Raised(lowered) else if naks == 2 then lowered else -1)
  {
  }

  /** What one bit does to the offset. Above the error threshold it is lowered by one, at most to -1. When `window` blocks have
      been sent the counts start again, and the offset is raised by one, at most to 1, if at most one first-round refusal was
      counted, is kept if two were, and falls to -1, from wherever it was, if more were. */
  lemma BitAdapts(p: Limits, s: Dlsch, dl: nat, bit: bool)
    requires Valid(p, s) && dl < 10 && Waiting(p, s, dl) && InRange(s.mcsOffset)
    ensures Valid(p, Apply(p, s, dl, bit))
    ensures var t := Apply(p, s, dl, bit);
            var naks := s.nakRound0 + FirstRoundNaks(t) - FirstRoundNaks(s);
            var lowered := if naks > p.errorThreshold then Lowered(s.mcsOffset) else s.mcsOffset;
            && InRange(t.mcsOffset)
            && FirstRoundNaks(t) == FirstRoundNaks(s) + (if !bit && s.processes[s.harqIds[dl]].round == 0 then 1 else 0)
            && (s.slidingCount != p.window ==> t.nakRound0 == naks && t.slidingCount == s.slidingCount && t.mcsOffset == lowered)
            && (s.slidingCount == p.window ==>
                  && t.nakRound0 == 0 && t.slidingCount == 0
                  && t.mcsOffset == if naks < 2 then Raised(lowered) else if naks == 2 then lowered else -1)
  {
    ApplyKeepsValid(p, s, dl, bit);
    var u := if bit then Acked(p, s, dl) else Nacked(p, s, dl);
    RefusalCounted(p, s, dl, bit);
    AdaptMeans(p, u.nakRound0, u.mcsOffset, u.slidingCount);
    hide Adapt, FirstRoundNaks, Acked, Nacked, Lowered, Raised;
  }

  lemma RefusalCounted(p: Limits, s: Dlsch, dl: nat, bit: bool)
    requires Valid(p, s) && dl < 10 && Waiting(p, s, dl)
    ensures var u := if bit then Acked(p, s, dl) else Nacked(p, s, dl);
            && Square(u.nak)
            && u.mcsOffset == s.mcsOffset && u.slidingCount == s.slidingCount
            && u.nakRound0 == s.nakRound0 + (if !bit && s.processes[s.harqIds[dl]].round == 0 then 1 else 0)
            && u.nakRound0 - s.nakRound0 == FirstRoundNaks(u) - FirstRoundNaks(s)
            && Apply(p, s, dl, bit).nak == u.nak
  {
    BumpColumn(s.nak, s.harqIds[dl], s.processes[s.harqIds[dl]].round);
    hide Adapt, FirstColumn, Bump;
  }

  /** Sending a block counts it; nothing else of the adaptation changes. */
  lemma SendingCounts(p: Limits, s: Dlsch, subframe: nat, grant: Option<Grant>)
    requires Valid(p, s) && subframe < 10
    ensures var t := Transmit(p, s, subframe, grant);
            && t.slidingCount == s.slidingCount + (if t.subframeTx[subframe] then 1 else 0)
            && (t.subframeTx[subframe] <==> grant.Some? && grant.value.pid < 8)
            && t.nakRound0 == s.nakRound0 && t.mcsOffset == s.mcsOffset && FirstRoundNaks(t) == FirstRoundNaks(s)
  {
  }

  /** What holds of the adaptation at the start of a run and is kept by every bit is kept by every report. */
  predicate Kept(p: Limits, s: Dlsch, t: Dlsch)
    requires Valid(p, s) && Valid(p, t)
  {
    && (InRange(s.mcsOffset) ==> InRange(t.mcsOffset))
    && (InRange(s.mcsOffset) && s.slidingCount > p.window ==>
          && t.slidingCount >= s.slidingCount && t.mcsOffset <= s.mcsOffset
          && t.nakRound0 - s.nakRound0 == FirstRoundNaks(t) - FirstRoundNaks(s) >= 0)
  }

  lemma BitKeeps(p: Limits, s: Dlsch, t: Dlsch, dl: nat, bit: bool)
    requires Valid(p, s) && Valid(p, t) && dl < 10 && Kept(p, s, t)
    ensures Valid(p, Apply(p, t, dl, bit)) && Kept(p, s, Apply(p, t, dl, bit))
  {
    ApplyKeepsValid(p, t, dl, bit);
    if Waiting(p, t, dl) && InRange(t.mcsOffset) {
      BitAdapts(p, t, dl, bit);
    }
    hide Apply, FirstRoundNaks;
  }

  lemma {:induction false} FeedbackKeeps(p: Limits, d: Duplex, s: Dlsch, subframe: nat, rep: Report, m: nat)
    requires Valid(p, s) && Supported(d) && subframe < 10 && m <= UlAckM(d, subframe)
    ensures Kept(p, s, FeedbackUpTo(p, d, s, subframe, rep, m))
  {
    if m > 0 {
      FeedbackKeeps(p, d, s, subframe, rep, m - 1);
      DlSubframeInRange(d, subframe, m - 1);
      BitKeeps(p, s, FeedbackUpTo(p, d, s, subframe, rep, m - 1), UlAckDlSubframe(d, subframe, m - 1),
               BitFor(d, subframe, s.subframeTx, rep, m - 1));
    }
    hide Apply, BitFor, Kept;
  }

  lemma StepKeeps(p: Limits, d: Duplex, l: Ledger, e: Event)
    requires Valid(p, l.s) && Supported(d) && ValidEvent(e)
    ensures Kept(p, l.s, Step(p, d, l, e).s)
  {
    match e
    case Tx(sf, grant) => SendingCounts(p, l.s, sf, grant);
    case Rx(sf, rep) => FeedbackKeeps(p, d, l.s, sf, rep, UlAckM(d, sf));
    case RateReport =>
    hide Transmit, FeedbackUpTo, FirstRoundNaks;
  }

  /** Over every run the offset is -1, 0 or 1. */
  lemma {:induction false} OffsetInRange(p: Limits, d: Duplex, events: seq<Event>)
    requires ValidLimits(p) && Supported(d) && forall k :: 0 <= k < |events| ==> ValidEvent(events[k])
    ensures InRange(Run(p, d, events).s.mcsOffset)
  {
    if events != [] {
      var init, e := events[..|events| - 1], events[|events| - 1];
      OffsetInRange(p, d, init);
      StepKeeps(p, d, Run(p, d, init), e);
    }
    hide Step;
  }

  /** The window is tested for equality: once the count of sent blocks has passed it, in any run, the counts never start again
      and the offset never rises. */
  lemma {:induction false} WindowMissedForever(p: Limits, d: Duplex, events: seq<Event>, n: nat)
    requires ValidLimits(p) && Supported(d) && n <= |events| && forall k :: 0 <= k < |events| ==> ValidEvent(events[k])
    requires Run(p, d, events[..n]).s.slidingCount > p.window
    ensures var s, t := Run(p, d, events[..n]).s, Run(p, d, events).s;
            && t.slidingCount >= s.slidingCount && t.mcsOffset <= s.mcsOffset
            && t.nakRound0 - s.nakRound0 == FirstRoundNaks(t) - FirstRoundNaks(s) >= 0
    decreases |events|
  {
    hide Step, FirstRoundNaks, InRange;
    if n == |events| {
      assert events[..n] == events;
    } else {
      var init, e := events[..|events| - 1], events[|events| - 1];
      assert init[..n] == events[..n];
      WindowMissedForever(p, d, init, n);
      OffsetInRange(p, d, init);
      StepKeeps(p, d, Run(p, d, init), e);
    }
  }

  /** It can be passed with any window: by sending more blocks than that before the next report is processed. */
  lemma {:induction false} WindowCanBeMissed(p: Limits, d: Duplex, n: nat)
    requires ValidLimits(p) && Supported(d)
    ensures Run(p, d, seq(n, _ => Tx(0, Some(Grant(0, 0))))).s.slidingCount == n
  {
    var events := seq(n, _ => Tx(0, Some(Grant(0, 0))));
    if n > 0 {
      WindowCanBeMissed(p, d, n - 1);
      assert events[..n - 1] == seq(n - 1, _ => Tx(0, Some(Grant(0, 0))));
      SendingCounts(p, Run(p, d, events[..n - 1]).s, 0, Some(Grant(0, 0)));
    }
    hide FirstRoundNaks;
  }

  /** No window was ever completed: nothing can be waiting before a block is sent. */
  predicate Unadapted(p: Limits, s: Dlsch)
    requires Valid(p, s)
  {
    && (s.slidingCount == 0 ==> forall k :: 0 <= k < 8 ==> s.processes[k].status.Idle?)
    && s.nakRound0 == FirstRoundNaks(s)
    && s.mcsOffset == if s.nakRound0 > p.errorThreshold then -1 else 0
  }

  lemma BitStaysUnadapted(p: Limits, s: Dlsch, dl: nat, bit: bool)
    requires Valid(p, s) && dl < 10 && p.window == 0 && Unadapted(p, s)
    ensures Valid(p, Apply(p, s, dl, bit)) && Unadapted(p, Apply(p, s, dl, bit))
  {
    ApplyKeepsValid(p, s, dl, bit);
    if Waiting(p, s, dl) {
      BitAdapts(p, s, dl, bit);
    }
    hide Apply, FirstRoundNaks;
  }

  lemma {:induction false} FeedbackStaysUnadapted(p: Limits, d: Duplex, s: Dlsch, subframe: nat, rep: Report, m: nat)
    requires Valid(p, s) && Supported(d) && subframe < 10 && m <= UlAckM(d, subframe) && p.window == 0 && Unadapted(p, s)
    ensures Unadapted(p, FeedbackUpTo(p, d, s, subframe, rep, m))
  {
    if m > 0 {
      FeedbackStaysUnadapted(p, d, s, subframe, rep, m - 1);
      DlSubframeInRange(d, subframe, m - 1);
      BitStaysUnadapted(p, FeedbackUpTo(p, d, s, subframe, rep, m - 1), UlAckDlSubframe(d, subframe, m - 1),
                        BitFor(d, subframe, s.subframeTx, rep, m - 1));
    }
    hide Apply, BitFor, Unadapted;
  }

  lemma SendingStaysUnadapted(p: Limits, s: Dlsch, subframe: nat, grant: Option<Grant>)
    requires Valid(p, s) && subframe < 10 && p.window == 0 && Unadapted(p, s)
    ensures Unadapted(p, Transmit(p, s, subframe, grant))
  {
    SendingCounts(p, s, subframe, grant);
    hide FirstRoundNaks;
  }

  /** With window 0, which is what both limits are when nothing assigns them: over every run no count ever starts again, and the
      offset is 0 until the first-round refusals pass the threshold and -1 ever after. */
  lemma {:induction false} UnsetWindowNeverRecovers(p: Limits, d: Duplex, events: seq<Event>)
    requires ValidLimits(p) && Supported(d) && forall k :: 0 <= k < |events| ==> ValidEvent(events[k])
    requires p.window == 0
    ensures var s := Run(p, d, events).s;
            && s.nakRound0 == FirstRoundNaks(s)
            && s.mcsOffset == if FirstRoundNaks(s) > p.errorThreshold then -1 else 0
    ensures Unadapted(p, Run(p, d, events).s)
  {
    if events != [] {
      var init, e := events[..|events| - 1], events[|events| - 1];
      UnsetWindowNeverRecovers(p, d, init);
      var s := Run(p, d, init).s;
      match e
      case Tx(sf, grant) => SendingStaysUnadapted(p, s, sf, grant);
      case Rx(sf, rep) => FeedbackStaysUnadapted(p, d, s, sf, rep, UlAckM(d, sf));
      case RateReport =>
    }
    hide Transmit, FeedbackUpTo;
  }

  /* ---------- resets ---------- */

  /** The first scheduling request after connection setup idles process 0. */
  function FirstSchedulingRequest(p: Limits, s: Dlsch): (t: Dlsch)
    requires Valid(p, s)
    ensures Valid(p, t)
  {
    s.(processes := s.processes[0 := s.processes[0].(round := 0, status := Idle)])
  }

  /** It loses a block from the accounts exactly when process 0 was in a retransmission. */
  lemma FirstSchedulingRequestKeepsFlowExactly(p: Limits, s: Dlsch)
    requires Valid(p, s) && Flow(p, s)
    ensures Flow(p, FirstSchedulingRequest(p, s)) <==> !(s.processes[0].status.Active? && s.processes[0].round > 0)
    ensures FirstSchedulingRequest(p, s) == s.(processes := [Process(Idle, 0, s.processes[0].tbs)] + s.processes[1..])
  {
    var t := FirstSchedulingRequest(p, s);
    assert FlowOf(p, s.processes[0], s.nak[0], s.ack[0], s.l2Errors[0]);
    forall k | 1 <= k < 8
      ensures FlowOf(p, t.processes[k], t.nak[k], t.ack[k], t.l2Errors[k])
    {
      assert FlowOf(p, s.processes[k], s.nak[k], s.ack[k], s.l2Errors[k]);
    }
    if s.processes[0].status.Active? && s.processes[0].round > 0 {
      var r := s.processes[0].round;
      assert s.nak[0][r - 1] == s.ack[0][r] + s.nak[0][r] + 1;
      assert !FlowOf(p, t.processes[0], t.nak[0], t.ack[0], t.l2Errors[0]);
    } else {
      assert FlowOf(p, t.processes[0], t.nak[0], t.ack[0], t.l2Errors[0]);
    }
  }

  /* ---------- multiplexing ---------- */

  /** Without a scheduling request a multiplexed report acknowledges nothing, whatever its bits:
      the bits decoded from it are overwritten before use. */
  lemma {:induction false} MultiplexedReportNeverAcks(p: Limits, d: Duplex, s: Dlsch, subframe: nat, rep: Report, m: nat)
    requires Valid(p, s) && Supported(d) && subframe < 10 && m <= UlAckM(d, subframe)
    requires Multiplexed(rep) && !rep.sr
    ensures FeedbackUpTo(p, d, s, subframe, rep, m).ack == s.ack
    ensures ClosedBlocks(p, d, s, subframe, rep, m) == []
  {
    if m > 0 {
      MultiplexedReportNeverAcks(p, d, s, subframe, rep, m - 1);
      DlSubframeInRange(d, subframe, m - 1);
    }
  }

  /* ---------- the routine itself ---------- */

  class DlschUser {
    const limits: Limits
    const processes: array<Process>
    const subframeTx: array<bool>
    const harqIds: array<nat>
    const nak: array<seq<nat>>
    const ack: array<seq<nat>>
    const l2Errors: array<nat>
    var totalTbs: nat
    var nakRound0: nat
    var mcsOffset: int
    var slidingCount: nat

    constructor (limits: Limits)
      requires ValidLimits(limits)
      ensures this.limits == limits && Ok() && State() == Fresh(limits)
      ensures fresh(processes) && fresh(subframeTx) && fresh(harqIds) && fresh(nak) && fresh(ack) && fresh(l2Errors)
    {
      this.limits := limits;
      var zeros := seq(8, _ => 0);
      processes := new Process[8](_ => Process(Idle, 0, 0));
      subframeTx := new bool[10](_ => false);
      harqIds := new nat[10](_ => limits.mDlHarq);
      nak := new seq<nat>[8](_ => zeros);
      ack := new seq<nat>[8](_ => zeros);
      l2Errors := new nat[8](_ => 0);
      totalTbs, nakRound0, mcsOffset, slidingCount := 0, 0, 0, 0;
      new;
      ghost var t := Fresh(limits);
      assert processes[..] == t.processes && subframeTx[..] == t.subframeTx && harqIds[..] == t.harqIds;
      assert nak[..] == t.nak && ack[..] == t.ack && l2Errors[..] == t.l2Errors;
    }

    ghost function State(): Dlsch
      reads this, processes, subframeTx, harqIds, nak, ack, l2Errors
    {
      Dlsch(processes[..], subframeTx[..], harqIds[..], nak[..], ack[..], l2Errors[..],
            totalTbs, nakRound0, mcsOffset, slidingCount)
    }

    ghost predicate Ok()
      reads this, processes, subframeTx, harqIds, nak, ack, l2Errors
    {
      harqIds != l2Errors && nak != ack && Valid(limits, State())
    }

    /** One round of the loop: the report bit for one scheduled downlink subframe. */
    method ApplyBit(dl: nat, bit: bool)
      requires Ok() && dl < 10
      modifies this, processes, harqIds, nak, ack, l2Errors
      ensures Ok() && State() == Apply(limits, old(State()), dl, bit)
    {
      ApplyKeepsValid(limits, State(), dl, bit);
      var pid := harqIds[dl];
      if pid < limits.mDlHarq {
        if processes[pid].status == Active {
          if !bit {
            RecordNak(dl, pid);
          } else {
            RecordAck(dl, pid);
          }
          AdaptRate();
        }
      }
    }

    method RecordNak(dl: nat, pid: nat)
      requires Ok() && dl < 10 && harqIds[dl] == pid && Waiting(limits, State(), dl)
      modifies this`nakRound0, processes, harqIds, nak, l2Errors
      ensures State() == Nacked(limits, old(State()), dl)
    {
      var proc := processes[pid];
      if proc.round == 0 {
        nakRound0 := nakRound0 + 1;
      }
      nak[pid] := nak[pid][proc.round := nak[pid][proc.round] + 1];
      processes[pid] := proc.(round := proc.round + 1);
      if proc.round + 1 == limits.mLimit {
        processes[pid] := proc.(round := 0, status := Idle);
        l2Errors[pid] := l2Errors[pid] + 1;
        harqIds[dl] := limits.mDlHarq;
      }
      ghost var t := Nacked(limits, old(State()), dl);
      assert nak[..] == t.nak && processes[..] == t.processes && harqIds[..] == t.harqIds && l2Errors[..] == t.l2Errors;
    }

    method RecordAck(dl: nat, pid: nat)
      requires Ok() && dl < 10 && harqIds[dl] == pid && Waiting(limits, State(), dl)
      modifies this`totalTbs, processes, harqIds, ack
      ensures State() == Acked(limits, old(State()), dl)
    {
      var proc := processes[pid];
      ack[pid] := ack[pid][proc.round := ack[pid][proc.round] + 1];
      processes[pid] := proc.(round := 0, status := Idle);
      harqIds[dl] := limits.mDlHarq;
      totalTbs := totalTbs + proc.tbs;
      ghost var t := Acked(limits, old(State()), dl);
      assert ack[..] == t.ack && processes[..] == t.processes && harqIds[..] == t.harqIds;
    }

    method AdaptRate()
      modifies this`nakRound0, this`mcsOffset, this`slidingCount
      ensures (nakRound0, mcsOffset, slidingCount) == Adapt(limits, old(nakRound0), old(mcsOffset), old(slidingCount))
    {
      if nakRound0 > limits.errorThreshold {
        if mcsOffset == 1 {
          mcsOffset := 0;
        } else {
          mcsOffset := -1;
        }
      }
      if slidingCount == limits.window {
        if mcsOffset == 0 && nakRound0 < 2 {
          mcsOffset := 1;
        }
        if mcsOffset == 1 && nakRound0 > 2 {
          mcsOffset := 0;
        }
        if mcsOffset == 0 && nakRound0 > 2 {
          mcsOffset := -1;
        }
        if mcsOffset == -1 && nakRound0 < 2 {
          mcsOffset := 0;
        }
        nakRound0 := 0;
        slidingCount := 0;
      }
    }

    /** The first half of the routine: the bits of the report, before the loop overwrites multiplexed ones. */
    method DecodeBits(d: Duplex, subframe: nat, rep: Report) returns (dlschAck: seq<bool>, nbAck: nat)
      requires Supported(d) && subframe < 10
      ensures rep.sr && Multiplexed(rep) ==> nbAck == SrCount(d, subframe, rep)
      ensures BitsReady(d, rep, dlschAck)
    {
      var junk: nat -> bool :| true;   // the buffer starts uninitialised
      dlschAck := seq(8, junk);
      nbAck := 0;
      var count := UlAckM(d, subframe);
      if d.Fdd? {
        dlschAck := dlschAck[0 := if rep.pusch then rep.oAck0 else rep.payload0];
      } else if rep.pusch {
        dlschAck := dlschAck[0 := rep.oAck0][1 := if rep.bundling then rep.oAck0 else rep.oAck1];
      } else if rep.sr && rep.sel != 2 {
        if count == 2 {
          if rep.payload0 && rep.payload1 {
            nbAck := 1;
          } else if rep.payload0 && !rep.payload1 {
            nbAck := 2;
          }
        }
      } else if rep.sel == 2 {
        dlschAck := dlschAck[0 := rep.payload0][1 := rep.payload0];
      } else if count == 1 {
        dlschAck := dlschAck[0 := rep.payload0];
      } else if count == 2 {
        var both := rep.sel == 1 && rep.payload0 && rep.payload1;
        dlschAck := dlschAck[0 := both || (rep.sel == 0 && !rep.payload0 && rep.payload1)];
        dlschAck := dlschAck[1 := both || (rep.sel == 1 && !rep.payload0 && !rep.payload1)];
      }
    }

    method ProcessHarqFeedback(d: Duplex, subframe: nat, rep: Report)
      requires Ok() && Supported(d) && subframe < 10
      modifies this, processes, harqIds, nak, ack, l2Errors
      ensures Ok() && State() == Feedback(limits, d, old(State()), subframe, rep)
    {
      hide Apply, BitFor, AckBit, UlAckDlSubframe, BitsReady;
      ghost var s := State();
      var dlschAck, nbAck := DecodeBits(d, subframe, rep);
      var count := UlAckM(d, subframe);
      var allAcked := true;
      if rep.sr && rep.sel != 2 && !rep.pusch {
        var nbAlloc := CountScheduled(d, subframe);
        allAcked := nbAlloc == nbAck;
      }
      assert allAcked == AllAckedFlag(d, subframe, s.subframeTx, rep);
      var m, mp := 0, -1;
      while m < count
        invariant 0 <= m <= count
        invariant State() == FeedbackUpTo(limits, d, s, subframe, rep, m)
        invariant rep.pusch ==> mp == Allocated(d, subframe, s.subframeTx, m) - 1 < m
        invariant BitsReady(d, rep, dlschAck)
      {
        mp, dlschAck := FeedbackAt(d, subframe, rep, m, mp, dlschAck, allAcked, s);
        m := m + 1;
      }
    }

    static predicate BitsReady(d: Duplex, rep: Report, bits: seq<bool>)
    {
      && |bits| == 8
      && (!Multiplexed(rep) ==> bits[0] == AckBit(d, rep, true, 0))
      && (!Multiplexed(rep) && d.Tdd? ==> bits[1] == AckBit(d, rep, true, 1))
    }

    /** The body of the loop. */
    method FeedbackAt(d: Duplex, subframe: nat, rep: Report, m: nat, mp: int, bits: seq<bool>, allAcked: bool,
                      ghost s: Dlsch)
      returns (newMp: int, newBits: seq<bool>)
      requires harqIds != l2Errors && nak != ack
      requires Valid(limits, s) && Supported(d) && subframe < 10 && m < UlAckM(d, subframe)
      requires State() == FeedbackUpTo(limits, d, s, subframe, rep, m)
      requires allAcked == AllAckedFlag(d, subframe, s.subframeTx, rep)
      requires rep.pusch ==> mp == Allocated(d, subframe, s.subframeTx, m) - 1 < m
      requires BitsReady(d, rep, bits)
      modifies this, processes, harqIds, nak, ack, l2Errors
      ensures State() == FeedbackUpTo(limits, d, s, subframe, rep, m + 1)
      ensures rep.pusch ==> newMp == Allocated(d, subframe, s.subframeTx, m + 1) - 1 < m + 1
      ensures BitsReady(d, rep, newBits)
    {
      newMp, newBits := mp, bits;
      DlSubframeInRange(d, subframe, m);
      var dl := UlAckDlSubframe(d, subframe, m);
      if subframeTx[dl] {
        if rep.pusch {
          newMp := mp + 1;
        } else {
          newMp := m;
        }
        if rep.sel != 2 && !rep.pusch {
          newBits := newBits[m := rep.sr && allAcked];
        }
        PickedBit(d, subframe, s.subframeTx, rep, m, newMp, newBits, allAcked);
        ApplyBit(dl, newBits[newMp]);
      }
    }

    static lemma PickedBit(d: Duplex, subframe: nat, tx: seq<bool>, rep: Report, m: nat, mp: int, bits: seq<bool>, allAcked: bool)
      requires Supported(d) && subframe < 10 && |tx| == 10 && m < UlAckM(d, subframe)
      requires mp == if rep.pusch then Allocated(d, subframe, tx, m) as int else m as int
      requires rep.pusch ==> mp <= m
      requires allAcked == AllAckedFlag(d, subframe, tx, rep)
      requires BitsReady(d, rep, bits)
      requires Multiplexed(rep) ==> bits[m] == (rep.sr && allAcked)
      ensures 0 <= mp < 8 && bits[mp] == BitFor(d, subframe, tx, rep, m)
    {
    }

    method CountScheduled(d: Duplex, subframe: nat) returns (n: nat)
      requires Ok() && Supported(d) && subframe < 10
      ensures n == Allocated(d, subframe, subframeTx[..], UlAckM(d, subframe))
    {
      n := 0;
      var m := 0;
      while m < UlAckM(d, subframe)
        invariant 0 <= m <= UlAckM(d, subframe)
        invariant n == Allocated(d, subframe, subframeTx[..], m)
      {
        DlSubframeInRange(d, subframe, m);
        if subframeTx[UlAckDlSubframe(d, subframe, m)] {
          n := n + 1;
        }
        m := m + 1;
      }
    }
  }
}
