/** Both ends of the downlink acknowledgement in one run: the base station's grants and feedback processing,
    the terminal's records and reports. The base station prepares a block four subframes before it is on the air.
    Feedback is bundled (or FDD), the terminal sees every grant, and subframes are processed one after the other. */
module AckEndToEnd {
  import opened Options
  import opened FrameTiming
  import opened AckTables
  import opened DlHarq
  import Pucch
  import SubframeRing

  /* ---------- a report whose bits are all equal ---------- */

  /** Every bit the base station reads from this report is `bit`. */
  predicate Uniform(d: Duplex, subframe: nat, tx: seq<bool>, rep: Report, bit: bool)
    requires Supported(d) && subframe < 10 && |tx| == 10
  {
    if Multiplexed(rep) then bit == (rep.sr && AllAckedFlag(d, subframe, tx, rep))
    else if rep.pusch then rep.oAck0 == bit && (d.Fdd? || rep.bundling) else rep.sel == 2 && rep.payload0 == bit
  }

  predicate Names(p: Limits, d: Duplex, s: Dlsch, subframe: nat, m: nat, pid: nat)
    requires Valid(p, s) && Supported(d) && subframe < 10 && m < UlAckM(d, subframe)
  {
    DlSubframeInRange(d, subframe, m);
    s.subframeTx[UlAckDlSubframe(d, subframe, m)] && s.harqIds[UlAckDlSubframe(d, subframe, m)] == pid
  }

  predicate Touched(p: Limits, d: Duplex, s: Dlsch, subframe: nat, m: nat, pid: nat)
    requires Valid(p, s) && Supported(d) && subframe < 10 && m <= UlAckM(d, subframe)
  {
    exists k :: 0 <= k < m && Names(p, d, s, subframe, k, pid)
  }

  /** The block that was in flight in `s` has been refused: counted, and sent into a later round or dropped. */
  predicate Refused(s: Dlsch, t: Dlsch, pid: nat)
    requires pid < |s.processes| && pid < |t.processes| && pid < |s.nak| && pid < |t.nak|
  {
    var r := s.processes[pid].round;
    && r < |s.nak[pid]| && r < |t.nak[pid]|
    && t.nak[pid][r] > s.nak[pid][r]
    && (t.processes[pid].status.Idle? || t.processes[pid].round > r)
  }

  /** The block that was in flight in `s` has been closed as acknowledged. */
  predicate Closed(s: Dlsch, t: Dlsch, pid: nat)
    requires pid < |s.processes| && pid < |t.processes| && pid < |s.ack| && pid < |t.ack|
  {
    var r := s.processes[pid].round;
    && r < |s.ack[pid]| && r < |t.ack[pid]|
    && t.ack[pid][r] == s.ack[pid][r] + 1
    && t.processes[pid].status.Idle?
  }

  lemma FeedbackStep(p: Limits, d: Duplex, s: Dlsch, subframe: nat, rep: Report, m: nat)
    requires Valid(p, s) && Supported(d) && subframe < 10 && m < UlAckM(d, subframe)
    ensures var dl, t := UlAckDlSubframe(d, subframe, m), FeedbackUpTo(p, d, s, subframe, rep, m);
            dl < 10 && |s.subframeTx| == 10
            && FeedbackUpTo(p, d, s, subframe, rep, m + 1)
               == if s.subframeTx[dl] then Apply(p, t, dl, BitFor(d, subframe, s.subframeTx, rep, m)) else t
  {
    DlSubframeInRange(d, subframe, m);
    hide Apply, BitFor;
  }

  lemma ApplyFrame(p: Limits, t: Dlsch, dl: nat, bit: bool, j: nat)
    requires Valid(p, t) && dl < 10 && j < 10 && j != dl
    ensures Apply(p, t, dl, bit).harqIds == t.harqIds || Apply(p, t, dl, bit).harqIds == t.harqIds[dl := p.mDlHarq]
    ensures |Apply(p, t, dl, bit).harqIds| == 10 && Apply(p, t, dl, bit).harqIds[j] == t.harqIds[j]
  {
    hide Adapt, Bump;
  }

  lemma FrameStep(p: Limits, d: Duplex, s: Dlsch, subframe: nat, rep: Report, m: nat, j: nat)
    requires Valid(p, s) && Supported(d) && subframe < 10 && m < UlAckM(d, subframe) && j < 10
    requires UlAckDlSubframe(d, subframe, m) != j && |FeedbackUpTo(p, d, s, subframe, rep, m).harqIds| == 10
    ensures |FeedbackUpTo(p, d, s, subframe, rep, m + 1).harqIds| == 10
    ensures FeedbackUpTo(p, d, s, subframe, rep, m + 1).harqIds[j] == FeedbackUpTo(p, d, s, subframe, rep, m).harqIds[j]
  {
    hide Apply, BitFor, FeedbackUpTo, Valid, UlAckM, UlAckDlSubframe;
    FeedbackStep(p, d, s, subframe, rep, m);
    var t := FeedbackUpTo(p, d, s, subframe, rep, m);
    ApplyFrame(p, t, UlAckDlSubframe(d, subframe, m), BitFor(d, subframe, s.subframeTx, rep, m), j);
  }

  /** Feedback touches the entries of its own set only. */
  lemma {:induction false} FeedbackFrame(p: Limits, d: Duplex, s: Dlsch, subframe: nat, rep: Report, m: nat, j: nat)
    requires Valid(p, s) && Supported(d) && subframe < 10 && m <= UlAckM(d, subframe) && j < 10
    requires forall k :: 0 <= k < m ==> UlAckDlSubframe(d, subframe, k) != j
    ensures FeedbackUpTo(p, d, s, subframe, rep, m).harqIds[j] == s.harqIds[j]
  {
    if m > 0 {
      FeedbackFrame(p, d, s, subframe, rep, m - 1, j);
      FrameStep(p, d, s, subframe, rep, m - 1, j);
    }
  }

  lemma SetIsInjective(d: Duplex, subframe: nat, m: nat)
    requires Supported(d) && subframe < 10 && m < UlAckM(d, subframe)
    ensures forall k :: 0 <= k < m ==> UlAckDlSubframe(d, subframe, k) != UlAckDlSubframe(d, subframe, m)
  {
  }

  lemma UniformBit(d: Duplex, subframe: nat, tx: seq<bool>, rep: Report, m: nat, bit: bool)
    requires Supported(d) && subframe < 10 && |tx| == 10 && m < UlAckM(d, subframe) && Uniform(d, subframe, tx, rep, bit)
    ensures BitFor(d, subframe, tx, rep, m) == bit
  {
  }

  lemma ApplyNak(p: Limits, s: Dlsch, t: Dlsch, dl: nat, pid: nat)
    requires Valid(p, s) && Valid(p, t) && dl < 10 && pid < 8
    ensures var u := Apply(p, t, dl, false);
            && Valid(p, u) && u.ack == t.ack && u.totalTbs == t.totalTbs
            && (t.harqIds[dl] != pid ==> u.processes[pid] == t.processes[pid] && u.nak[pid] == t.nak[pid])
            && (Refused(s, t, pid) ==> Refused(s, u, pid))
            && (t.harqIds[dl] == pid < p.mDlHarq && t.processes[pid].status.Active? ==> Refused(t, u, pid))
  {
    ApplyKeepsValid(p, t, dl, false);
  }

  lemma ApplyAck(p: Limits, s: Dlsch, t: Dlsch, dl: nat, pid: nat)
    requires Valid(p, s) && Valid(p, t) && dl < 10 && pid < 8
    ensures var u := Apply(p, t, dl, true);
            && Valid(p, u) && u.nak == t.nak && u.l2Errors == t.l2Errors
            && (t.harqIds[dl] != pid ==> u.processes[pid] == t.processes[pid] && u.ack[pid] == t.ack[pid])
            && (Closed(s, t, pid) ==> Closed(s, u, pid))
            && (t.harqIds[dl] == pid < p.mDlHarq && t.processes[pid].status.Active? ==> Closed(t, u, pid))
  {
    ApplyKeepsValid(p, t, dl, true);
  }

  predicate RefusedUpTo(p: Limits, d: Duplex, s: Dlsch, t: Dlsch, subframe: nat, m: nat, pid: nat)
    requires Valid(p, s) && Valid(p, t) && Supported(d) && subframe < 10 && m <= UlAckM(d, subframe) && pid < 8
  {
    && t.ack == s.ack && t.totalTbs == s.totalTbs
    && (!Touched(p, d, s, subframe, m, pid) ==> t.processes[pid] == s.processes[pid] && t.nak[pid] == s.nak[pid])
    && (Touched(p, d, s, subframe, m, pid) && s.processes[pid].status.Active? ==> Refused(s, t, pid))
  }

  lemma NakStep(p: Limits, d: Duplex, s: Dlsch, t: Dlsch, u: Dlsch, subframe: nat, m: nat, pid: nat)
    requires Valid(p, s) && Valid(p, t) && Valid(p, u) && Supported(d) && subframe < 10 && m < UlAckM(d, subframe)
    requires pid < p.mDlHarq && UlAckDlSubframe(d, subframe, m) < 10 && RefusedUpTo(p, d, s, t, subframe, m, pid)
    requires t.harqIds[UlAckDlSubframe(d, subframe, m)] == s.harqIds[UlAckDlSubframe(d, subframe, m)]
    requires u == if s.subframeTx[UlAckDlSubframe(d, subframe, m)]
                  then Apply(p, t, UlAckDlSubframe(d, subframe, m), false) else t
    ensures RefusedUpTo(p, d, s, u, subframe, m + 1, pid)
  {
    var dl := UlAckDlSubframe(d, subframe, m);
    ApplyNak(p, s, t, dl, pid);
    assert Names(p, d, s, subframe, m, pid) <==> s.subframeTx[dl] && t.harqIds[dl] == pid;
    assert Touched(p, d, s, subframe, m + 1, pid)
      <==> Touched(p, d, s, subframe, m, pid) || Names(p, d, s, subframe, m, pid);
  }

  lemma UniformNakStep(p: Limits, d: Duplex, s: Dlsch, subframe: nat, rep: Report, m: nat, pid: nat)
    requires Valid(p, s) && Supported(d) && subframe < 10 && m < UlAckM(d, subframe) && Uniform(d, subframe, s.subframeTx, rep, false)
    requires pid < p.mDlHarq <= 8 && RefusedUpTo(p, d, s, FeedbackUpTo(p, d, s, subframe, rep, m), subframe, m, pid)
    ensures RefusedUpTo(p, d, s, FeedbackUpTo(p, d, s, subframe, rep, m + 1), subframe, m + 1, pid)
  {
    hide Apply, BitFor, FeedbackUpTo, RefusedUpTo, Valid, UlAckM, UlAckDlSubframe, Uniform;
    FeedbackStep(p, d, s, subframe, rep, m);
    SetIsInjective(d, subframe, m);
    FeedbackFrame(p, d, s, subframe, rep, m, UlAckDlSubframe(d, subframe, m));
    UniformBit(d, subframe, s.subframeTx, rep, m, false);
    NakStep(p, d, s, FeedbackUpTo(p, d, s, subframe, rep, m), FeedbackUpTo(p, d, s, subframe, rep, m + 1), subframe, m, pid);
  }

  /** A uniform NAK: nothing is counted as acknowledged, every named block in flight is refused, the others are untouched. */
  lemma {:induction false} UniformNak(p: Limits, d: Duplex, s: Dlsch, subframe: nat, rep: Report, m: nat, pid: nat)
    requires Valid(p, s) && Supported(d) && subframe < 10 && m <= UlAckM(d, subframe) && Uniform(d, subframe, s.subframeTx, rep, false)
    requires pid < p.mDlHarq
    ensures RefusedUpTo(p, d, s, FeedbackUpTo(p, d, s, subframe, rep, m), subframe, m, pid)
  {
    if m > 0 {
      UniformNak(p, d, s, subframe, rep, m - 1, pid);
      UniformNakStep(p, d, s, subframe, rep, m - 1, pid);
    }
  }

  predicate ClosedUpTo(p: Limits, d: Duplex, s: Dlsch, t: Dlsch, subframe: nat, m: nat, pid: nat)
    requires Valid(p, s) && Valid(p, t) && Supported(d) && subframe < 10 && m <= UlAckM(d, subframe) && pid < 8
  {
    && t.nak == s.nak && t.l2Errors == s.l2Errors
    && (!Touched(p, d, s, subframe, m, pid) ==> t.processes[pid] == s.processes[pid] && t.ack[pid] == s.ack[pid])
    && (Touched(p, d, s, subframe, m, pid) && s.processes[pid].status.Active? ==> Closed(s, t, pid))
  }

  lemma AckStep(p: Limits, d: Duplex, s: Dlsch, t: Dlsch, u: Dlsch, subframe: nat, m: nat, pid: nat)
    requires Valid(p, s) && Valid(p, t) && Valid(p, u) && Supported(d) && subframe < 10 && m < UlAckM(d, subframe)
    requires pid < p.mDlHarq && UlAckDlSubframe(d, subframe, m) < 10 && ClosedUpTo(p, d, s, t, subframe, m, pid)
    requires t.harqIds[UlAckDlSubframe(d, subframe, m)] == s.harqIds[UlAckDlSubframe(d, subframe, m)]
    requires u == if s.subframeTx[UlAckDlSubframe(d, subframe, m)]
                  then Apply(p, t, UlAckDlSubframe(d, subframe, m), true) else t
    ensures ClosedUpTo(p, d, s, u, subframe, m + 1, pid)
  {
    var dl := UlAckDlSubframe(d, subframe, m);
    ApplyAck(p, s, t, dl, pid);
    assert Names(p, d, s, subframe, m, pid) <==> s.subframeTx[dl] && t.harqIds[dl] == pid;
    assert Touched(p, d, s, subframe, m + 1, pid)
      <==> Touched(p, d, s, subframe, m, pid) || Names(p, d, s, subframe, m, pid);
  }

  lemma UniformAckStep(p: Limits, d: Duplex, s: Dlsch, subframe: nat, rep: Report, m: nat, pid: nat)
    requires Valid(p, s) && Supported(d) && subframe < 10 && m < UlAckM(d, subframe) && Uniform(d, subframe, s.subframeTx, rep, true)
    requires pid < p.mDlHarq <= 8 && ClosedUpTo(p, d, s, FeedbackUpTo(p, d, s, subframe, rep, m), subframe, m, pid)
    ensures ClosedUpTo(p, d, s, FeedbackUpTo(p, d, s, subframe, rep, m + 1), subframe, m + 1, pid)
  {
    hide Apply, BitFor, FeedbackUpTo, ClosedUpTo, Valid, UlAckM, UlAckDlSubframe, Uniform;
    FeedbackStep(p, d, s, subframe, rep, m);
    SetIsInjective(d, subframe, m);
    FeedbackFrame(p, d, s, subframe, rep, m, UlAckDlSubframe(d, subframe, m));
    UniformBit(d, subframe, s.subframeTx, rep, m, true);
    AckStep(p, d, s, FeedbackUpTo(p, d, s, subframe, rep, m), FeedbackUpTo(p, d, s, subframe, rep, m + 1), subframe, m, pid);
  }

  /** A uniform ACK: nothing is counted as refused or lost, every named block in flight is closed, the others are untouched. */
  lemma {:induction false} UniformAck(p: Limits, d: Duplex, s: Dlsch, subframe: nat, rep: Report, m: nat, pid: nat)
    requires Valid(p, s) && Supported(d) && subframe < 10 && m <= UlAckM(d, subframe) && Uniform(d, subframe, s.subframeTx, rep, true)
    requires pid < p.mDlHarq
    ensures ClosedUpTo(p, d, s, FeedbackUpTo(p, d, s, subframe, rep, m), subframe, m, pid)
  {
    if m > 0 {
      UniformAck(p, d, s, subframe, rep, m - 1, pid);
      UniformAckStep(p, d, s, subframe, rep, m - 1, pid);
    }
  }

  /** Without a scheduling request a multiplexed report refuses every named block in flight, whatever its bits. */
  lemma {:induction false} MultiplexedReportRefuses(p: Limits, d: Duplex, s: Dlsch, subframe: nat, rep: Report, pid: nat)
    requires Valid(p, s) && Supported(d) && subframe < 10 && Multiplexed(rep) && !rep.sr && pid < p.mDlHarq
    ensures RefusedUpTo(p, d, s, Feedback(p, d, s, subframe, rep), subframe, UlAckM(d, subframe), pid)
  {
    UniformNak(p, d, s, subframe, rep, UlAckM(d, subframe), pid);
  }

  /** In the m-th subframe of the set a block was sent. */
  predicate Sent(p: Limits, d: Duplex, s: Dlsch, subframe: nat, m: nat)
    requires Valid(p, s) && Supported(d) && subframe < 10 && m < UlAckM(d, subframe)
  {
    DlSubframeInRange(d, subframe, m);
    s.subframeTx[UlAckDlSubframe(d, subframe, m)]
  }

  /** With a scheduling request a multiplexed report carries a count: payload 11 for one block, 10 for two. It closes every
      block in flight of a set of two if the count is that of the blocks sent, and refuses them all otherwise; in FDD and for
      sets of one it always refuses. */
  lemma {:induction false} SrReportExactly(p: Limits, d: Duplex, s: Dlsch, subframe: nat, rep: Report, pid: nat)
    requires Valid(p, s) && Supported(d) && subframe < 10 && Multiplexed(rep) && rep.sr && pid < p.mDlHarq
    requires exists m :: 0 <= m < UlAckM(d, subframe) && Sent(p, d, s, subframe, m)
    ensures var t, n := Feedback(p, d, s, subframe, rep), UlAckM(d, subframe);
            if d.Tdd? && n == 2 && rep.payload0 && (rep.payload1 <==> !(Sent(p, d, s, subframe, 0) && Sent(p, d, s, subframe, 1)))
            then ClosedUpTo(p, d, s, t, subframe, n, pid)
            else RefusedUpTo(p, d, s, t, subframe, n, pid)
  {
    CountOfSet(p, d, s, subframe);
    if AllAckedFlag(d, subframe, s.subframeTx, rep) {
      UniformAck(p, d, s, subframe, rep, UlAckM(d, subframe), pid);
    } else {
      UniformNak(p, d, s, subframe, rep, UlAckM(d, subframe), pid);
    }
    hide FeedbackUpTo, ClosedUpTo, RefusedUpTo, Allocated, UlAckDlSubframe, Sent;
  }

  lemma CountOfSet(p: Limits, d: Duplex, s: Dlsch, subframe: nat)
    requires Valid(p, s) && Supported(d) && subframe < 10
    requires exists m :: 0 <= m < UlAckM(d, subframe) && Sent(p, d, s, subframe, m)
    ensures var n, count := UlAckM(d, subframe), Allocated(d, subframe, s.subframeTx, UlAckM(d, subframe));
            && count > 0 && (n == 1 || n == 2) && (d.Fdd? ==> n == 1)
            && (n == 1 ==> count == 1)
            && (n == 2 ==> count == if Sent(p, d, s, subframe, 0) && Sent(p, d, s, subframe, 1) then 2 else 1)
  {
    var n := UlAckM(d, subframe);
    var m :| 0 <= m < n && Sent(p, d, s, subframe, m);
    assert m == 0 || m == 1;
    assert Allocated(d, subframe, s.subframeTx, 1) == if Sent(p, d, s, subframe, 0) then 1 else 0;
    hide UlAckDlSubframe;
  }

  /* each block is settled by its own bit */

  predicate Unsettled(s: Dlsch, t: Dlsch, pid: nat)
    requires pid < |s.processes| && pid < |t.processes|
    requires pid < |s.ack| && pid < |t.ack| && pid < |s.nak| && pid < |t.nak|
  {
    t.processes[pid] == s.processes[pid] && t.ack[pid] == s.ack[pid] && t.nak[pid] == s.nak[pid]
  }

  predicate Settled(s: Dlsch, t: Dlsch, pid: nat, bit: bool)
    requires pid < |s.processes| && pid < |t.processes|
    requires pid < |s.ack| && pid < |t.ack| && pid < |s.nak| && pid < |t.nak|
  {
    if bit then Closed(s, t, pid) && t.nak[pid] == s.nak[pid] else Refused(s, t, pid) && t.ack[pid] == s.ack[pid]
  }

  lemma ApplyOther(p: Limits, t: Dlsch, dl: nat, bit: bool, pid: nat)
    requires Valid(p, t) && dl < 10 && pid < p.mDlHarq && t.harqIds[dl] != pid
    ensures Valid(p, Apply(p, t, dl, bit)) && Unsettled(t, Apply(p, t, dl, bit), pid)
  {
    ApplyKeepsValid(p, t, dl, bit);
    if Waiting(p, t, dl) {
      BitSettles(p, t, dl, bit, pid);
    }
    hide Apply;
  }

  lemma ApplyOwn(p: Limits, t: Dlsch, dl: nat, bit: bool, pid: nat)
    requires Valid(p, t) && dl < 10 && pid < p.mDlHarq && t.harqIds[dl] == pid && t.processes[pid].status.Active?
    ensures Valid(p, Apply(p, t, dl, bit)) && Settled(t, Apply(p, t, dl, bit), pid, bit)
  {
    if bit {
      ApplyAck(p, t, t, dl, pid);
    } else {
      ApplyNak(p, t, t, dl, pid);
    }
    hide Apply;
  }

  /** Of all reports: a block whose process is named for the m-th subframe of the set only is untouched until then, and settled
      by the bit for that subframe. */
  lemma {:induction false} BlockSettledByItsBit(p: Limits, d: Duplex, s: Dlsch, subframe: nat, rep: Report, m: nat, pid: nat, n: nat)
    requires Valid(p, s) && Supported(d) && subframe < 10 && m < UlAckM(d, subframe) && n <= UlAckM(d, subframe)
    requires pid < p.mDlHarq && s.processes[pid].status.Active?
    requires forall k :: 0 <= k < UlAckM(d, subframe) ==> (Names(p, d, s, subframe, k, pid) <==> k == m)
    ensures var t := FeedbackUpTo(p, d, s, subframe, rep, n);
            if n <= m then Unsettled(s, t, pid) else Settled(s, t, pid, BitFor(d, subframe, s.subframeTx, rep, m))
  {
    hide Apply, BitFor, FeedbackUpTo, Valid, UlAckM, UlAckDlSubframe;
    if n == 0 {
      NoFeedbackYet(p, d, s, subframe, rep);
    } else {
      BlockSettledByItsBit(p, d, s, subframe, rep, m, pid, n - 1);
      FeedbackStep(p, d, s, subframe, rep, n - 1);
      var t, dl := FeedbackUpTo(p, d, s, subframe, rep, n - 1), UlAckDlSubframe(d, subframe, n - 1);
      SetIsInjective(d, subframe, n - 1);
      FeedbackFrame(p, d, s, subframe, rep, n - 1, dl);
      assert Names(p, d, s, subframe, n - 1, pid) <==> n - 1 == m;
      if s.subframeTx[dl] {
        if n - 1 == m {
          ApplyOwn(p, t, dl, BitFor(d, subframe, s.subframeTx, rep, m), pid);
        } else {
          ApplyOther(p, t, dl, BitFor(d, subframe, s.subframeTx, rep, n - 1), pid);
        }
      }
    }
  }

  lemma NoFeedbackYet(p: Limits, d: Duplex, s: Dlsch, subframe: nat, rep: Report)
    requires Valid(p, s) && Supported(d) && subframe < 10
    ensures FeedbackUpTo(p, d, s, subframe, rep, 0) == s
  {
  }

  /** On PUSCH without bundling the bits go to the blocks in the order in which they were sent: the first block of the set is
      settled by the first bit and the second one by the second, also if only the second subframe of the set carried a block. */
  lemma {:induction false} PuschBitsInOrder(p: Limits, d: Duplex, s: Dlsch, subframe: nat, rep: Report, m: nat, pid: nat)
    requires Valid(p, s) && Supported(d) && d.Tdd? && subframe < 10 && m < UlAckM(d, subframe) && rep.pusch && !rep.bundling
    requires pid < p.mDlHarq && s.processes[pid].status.Active?
    requires forall k :: 0 <= k < UlAckM(d, subframe) ==> (Names(p, d, s, subframe, k, pid) <==> k == m)
    ensures var first := forall k :: 0 <= k < m ==> !Sent(p, d, s, subframe, k);
            Settled(s, Feedback(p, d, s, subframe, rep), pid, if first then rep.oAck0 else rep.oAck1)
  {
    BlockSettledByItsBit(p, d, s, subframe, rep, m, pid, UlAckM(d, subframe));
    assert m == 0 || m == 1;
    assert m == 1 ==> (Allocated(d, subframe, s.subframeTx, 1) == 0 <==> !Sent(p, d, s, subframe, 0));
    assert Allocated(d, subframe, s.subframeTx, 0) == 0;
    hide FeedbackUpTo, Settled, UlAckDlSubframe;
  }

  /* ---------- runs, one tick per subframe ---------- */

  /** One subframe n of the base station: whether it processes the report due in it and on which channel that comes, then the
      grant it prepares for subframe n + 4 and whether the terminal will decode that block. */
  datatype Tick = Tick(grant: Option<Grant>, decoded: bool, processed: bool, pusch: bool, sr: bool)

  datatype Link = Link(enb: Dlsch, ue: seq<HarqStatus>)

  predicate Granted(k: Tick) { k.grant.Some? && k.grant.value.pid < 8 }

  predicate TransmitsAt(d: Duplex, subframe: nat)
  {
    d.Fdd? || SubframeSelect(d, subframe) != Uplink
  }

  /** The bit the terminal sends: the bundle of everything it received. */
  predicate UeBit(d: Duplex, subframe: nat, ue: seq<HarqStatus>)
    requires |ue| == 10 && subframe < 10 && UeLegal(d, subframe)
  {
    AnySent(ue, UeSet(d, subframe)) && AllAcked(ue, UeSet(d, subframe))
  }

  function ReportOf(k: Tick, bit: bool): Report
  {
    Report(k.pusch, bit, bit, bit, bit, 2, k.sr, true)
  }

  /** Reception of subframe t: the terminal reports, the base station applies the report. */
  function UplinkPart(p: Limits, d: Duplex, l: Link, t: nat, k: Tick): (r: Link)
    requires Valid(p, l.enb) && |l.ue| == 10 && Supported(d)
    ensures Valid(p, r.enb) && |r.ue| == 10
  {
    var sf := SubframeOf(t);
    if !UeLegal(d, sf) then l
    else Link(if k.processed then Feedback(p, d, l.enb, sf, ReportOf(k, UeBit(d, sf, l.ue))) else l.enb,
              AfterReset(d, sf, l.ue))
  }

  /** The base station prepares subframe t + 4. */
  function Prepare(p: Limits, d: Duplex, s: Dlsch, t: nat, k: Tick): (r: Dlsch)
    requires Valid(p, s)
    ensures Valid(p, r)
  {
    if TransmitsAt(d, SubframeOf(t + 4)) then Transmit(p, s, SubframeOf(t + 4), k.grant) else s
  }

  /** The terminal receives subframe t, which the base station prepared in tick t - 4. */
  function Listen(d: Duplex, ue: seq<HarqStatus>, t: nat, ticks: seq<Tick>): (r: seq<HarqStatus>)
    requires |ue| == 10 && t < |ticks|
    ensures |r| == 10
  {
    var sf := SubframeOf(t);
    if t >= 4 && TransmitsAt(d, sf) && Granted(ticks[t - 4]) then
      ue[sf := ue[sf].(ack := if ticks[t - 4].decoded then 1 else 0, send := true)]
    else ue
  }

  function Run(p: Limits, d: Duplex, ticks: seq<Tick>): (r: Link)
    requires ValidLimits(p) && Supported(d)
    ensures Valid(p, r.enb) && |r.ue| == 10
  {
    if ticks == [] then Link(Fresh(p), seq(10, _ => HarqStatus(2, false, UNTOUCHED, UNTOUCHED)))
    else
      var t := |ticks| - 1;
      var l := UplinkPart(p, d, Run(p, d, ticks[..t]), t, ticks[t]);
      Link(Prepare(p, d, l.enb, t, ticks[t]), Listen(d, l.ue, t, ticks))
  }

  lemma RunSnoc(p: Limits, d: Duplex, ticks: seq<Tick>, k: Tick)
    requires ValidLimits(p) && Supported(d)
    ensures var t := |ticks|;
            var l := UplinkPart(p, d, Run(p, d, ticks), t, k);
            Run(p, d, ticks + [k]) == Link(Prepare(p, d, l.enb, t, k), Listen(d, l.ue, t, ticks + [k]))
  {
    assert (ticks + [k])[..|ticks|] == ticks;
    hide UplinkPart, Prepare, Listen, Fresh, Valid;
  }

  /* ---------- which block a report is about, and which block the base station takes it for ---------- */

  /** Subframes between a block and the report on it; 0 for a downlink subframe that is never acknowledged. */
  function Delay(d: Duplex, j: nat): nat
  {
    if d.Fdd? then 4
    else if d.config == 1 then
      (match j case 0 => 7 case 1 => 6 case 4 => 4 case 5 => 7 case 6 => 6 case 9 => 4 case _ => 0)
    else
      (match j case 0 => 4 case 5 => 7 case 6 => 6 case 7 => 6 case 8 => 5 case 9 => 5 case _ => 0)
  }

  /** Ticks between the last writing of a ring entry and its reading: from ten on the entry has been written again. */
  function ReadAge(d: Duplex, j: nat): nat
  {
    if Delay(d, j) <= 6 then Delay(d, j) + 4 else Delay(d, j) - 6
  }

  /** How long ago subframe number j was last met, at time t: between 1 and 10 subframes. */
  function Age(t: nat, j: nat): nat
  {
    (t - 1 - j) % 10 + 1
  }

  lemma ReportDue(d: Duplex, t: nat, j: nat)
    requires Supported(d) && j < 10
    ensures UeLegal(d, SubframeOf(t)) && j in UeSet(d, SubframeOf(t)) <==> Delay(d, j) > 0 && Age(t, j) == Delay(d, j)
  {
    AgeBySubframe(t, j);
  }

  lemma AgeBySubframe(t: nat, j: nat)
    requires j < 10
    ensures Age(t, j) == if SubframeOf(t) > j then SubframeOf(t) - j else SubframeOf(t) - j + 10
    ensures Age(t + 1, j) == if SubframeOf(t) == j then 1 else Age(t, j) + 1
  {
    var q, sf := t / 10, t % 10;
    assert t - 1 - j == 10 * q + (sf - 1 - j);
    if sf > j {
      assert (t - 1 - j) % 10 == sf - 1 - j;
    } else {
      assert t - 1 - j == 10 * (q - 1) + (sf + 9 - j);
      assert (t - 1 - j) % 10 == sf + 9 - j;
    }
    if sf >= j {
      assert t - j == 10 * q + (sf - j);
      assert (t - j) % 10 == sf - j;
    } else {
      assert t - j == 10 * (q - 1) + (sf + 10 - j);
      assert (t - j) % 10 == sf + 10 - j;
    }
  }

  /** The report on j is due at the same time by both clocks: time on the air and time of preparation. */
  lemma BothClocks(d: Duplex, t: nat, j: nat)
    requires Supported(d) && j < 10 && Delay(d, j) > 0
    ensures Age(t + 4, j) == if Age(t, j) <= 6 then Age(t, j) + 4 else Age(t, j) - 6
    ensures Age(t, j) == Delay(d, j) <==> Age(t + 4, j) == ReadAge(d, j)
  {
    var a := t - 1 - j;
    assert (a + 4) % 10 == if a % 10 <= 5 then a % 10 + 4 else a % 10 - 6;
  }

  predicate Reported(d: Duplex, t: nat, j: nat)
    requires Supported(d)
  {
    j < 10 && UeLegal(d, SubframeOf(t)) && j in UeSet(d, SubframeOf(t))
  }

  /** The tick that prepared what was on the air in subframe j when the report now due is about; None before the run started. */
  function SentTick(d: Duplex, ticks: seq<Tick>, j: nat): Option<Tick>
  {
    var age := Delay(d, j) + 4;
    if age <= |ticks| then Some(ticks[|ticks| - age]) else None
  }

  /** The tick that last wrote entry j of the base station's ring when the report is due. */
  function ReadTick(d: Duplex, ticks: seq<Tick>, j: nat): Option<Tick>
  {
    var age := ReadAge(d, j);
    if 0 < age <= |ticks| then Some(ticks[|ticks| - age]) else None
  }

  predicate GrantedIn(k: Option<Tick>) { k.Some? && Granted(k.value) }

  /** A block of subframe j is in the report due at time |ticks|. */
  predicate InReport(d: Duplex, ticks: seq<Tick>, j: nat)
    requires Supported(d)
  {
    Reported(d, |ticks|, j) && GrantedIn(SentTick(d, ticks, j))
  }

  /** The base station applies the report due at time |ticks| to process pid because of entry j. */
  predicate Reads(d: Duplex, ticks: seq<Tick>, j: nat, pid: nat)
    requires Supported(d)
  {
    && Reported(d, |ticks|, j) && GrantedIn(ReadTick(d, ticks, j))
    && ReadTick(d, ticks, j).value.grant.value.pid == pid
  }

  /* ---------- what the two records hold ---------- */

  /** Until its report is due, the terminal holds what it received in subframe j; after that it has nothing to send for it. */
  predicate UeHolds(d: Duplex, ticks: seq<Tick>, ue: seq<HarqStatus>, j: nat)
    requires |ue| == 10 && j < 10
  {
    var t := |ticks|;
    var age := Age(t, j);
    if age > Delay(d, j) || age + 4 > t then !ue[j].send
    else
      var k := ticks[t - age - 4];
      ue[j].send == Granted(k) && (Granted(k) ==> ue[j].ack == if k.decoded then 1 else 0)
  }

  /** Entry j of the ring holds what was last prepared for subframe j, the process until its report is due. */
  predicate RingHolds(d: Duplex, ticks: seq<Tick>, tx: seq<bool>, ids: seq<nat>, j: nat)
    requires |tx| == 10 && |ids| == 10 && j < 10
  {
    var t := |ticks|;
    var age := Age(t + 4, j);
    if age > t then !tx[j]
    else
      var k := ticks[t - age];
      tx[j] == Granted(k) && (Granted(k) && age <= ReadAge(d, j) ==> ids[j] == k.grant.value.pid)
  }

  lemma UplinkKeepsEntry(p: Limits, d: Duplex, l: Link, t: nat, k: Tick, j: nat)
    requires Valid(p, l.enb) && |l.ue| == 10 && Supported(d) && j < 10
    ensures var r := UplinkPart(p, d, l, t, k);
            && r.enb.subframeTx == l.enb.subframeTx
            && (Reported(d, t, j) ==> !r.ue[j].send)
            && (!Reported(d, t, j) ==>
                  r.ue[j].send == l.ue[j].send && r.ue[j].ack == l.ue[j].ack && r.enb.harqIds[j] == l.enb.harqIds[j])
  {
    var sf := SubframeOf(t);
    if UeLegal(d, sf) && j !in UeSet(d, sf) {
      TablesAgree(d, sf, j);
      FeedbackFrame(p, d, l.enb, sf, ReportOf(k, UeBit(d, sf, l.ue)), UlAckM(d, sf), j);
    }
  }

  lemma PrepareEntry(p: Limits, d: Duplex, s: Dlsch, t: nat, k: Tick, j: nat)
    requires Valid(p, s) && j < 10 && TransmitsAt(d, j)
    ensures var r := Prepare(p, d, s, t, k);
            && (SubframeOf(t + 4) != j ==> r.subframeTx[j] == s.subframeTx[j] && r.harqIds[j] == s.harqIds[j])
            && (SubframeOf(t + 4) == j ==>
                  r.subframeTx[j] == Granted(k) && (Granted(k) ==> r.harqIds[j] == k.grant.value.pid))
  {
  }

  lemma RingStep(d: Duplex, ticks: seq<Tick>, k: Tick, tx: seq<bool>, ids: seq<nat>, tx': seq<bool>, ids': seq<nat>, j: nat)
    requires |tx| == |ids| == |tx'| == |ids'| == 10 && Supported(d) && j < 10 && Delay(d, j) > 0
    requires RingHolds(d, ticks, tx, ids, j)
    requires SubframeOf(|ticks| + 4) != j ==> tx'[j] == tx[j] && (!Reported(d, |ticks|, j) ==> ids'[j] == ids[j])
    requires SubframeOf(|ticks| + 4) == j ==> tx'[j] == Granted(k) && (Granted(k) ==> ids'[j] == k.grant.value.pid)
    ensures RingHolds(d, ticks + [k], tx', ids', j)
  {
    hide Reported, Delay, ReadAge, Age, SubframeOf;
    var t, more := |ticks|, ticks + [k];
    AgeAdvances(t + 4, j);
    assert more[..t] == ticks;
    if Reported(d, t, j) {
      ReadWhenReported(d, t, j);
    }
    if SubframeOf(t + 4) == j {
      assert more[t] == k;
    } else if Age(t + 4, j) <= t {
      assert more[t + 1 - Age(t + 5, j)] == ticks[t - Age(t + 4, j)];
    }
  }

  lemma AgeAdvances(t: nat, j: nat)
    requires j < 10
    ensures Age(t + 1, j) == (if SubframeOf(t) == j then 1 else Age(t, j) + 1) && Age(t, j) >= 1
  {
    AgeBySubframe(t, j);
  }

  lemma ReadWhenReported(d: Duplex, t: nat, j: nat)
    requires Supported(d) && Reported(d, t, j)
    ensures j < 10 && Age(t + 4, j) == ReadAge(d, j) && 1 <= ReadAge(d, j) <= 10 && Delay(d, j) > 0
  {
    ReportDue(d, t, j);
    BothClocks(d, t, j);
    hide UeLegal, UeSet, SubframeOf;
  }

  lemma UeStep(d: Duplex, ticks: seq<Tick>, k: Tick, ue: seq<HarqStatus>, mid: seq<HarqStatus>, j: nat)
    requires |ue| == |mid| == 10 && Supported(d) && j < 10 && Delay(d, j) > 0 && TransmitsAt(d, j)
    requires UeHolds(d, ticks, ue, j)
    requires Reported(d, |ticks|, j) ==> !mid[j].send
    requires !Reported(d, |ticks|, j) ==> mid[j].send == ue[j].send && mid[j].ack == ue[j].ack
    ensures UeHolds(d, ticks + [k], Listen(d, mid, |ticks|, ticks + [k]), j)
  {
    var t, more := |ticks|, ticks + [k];
    AgeBySubframe(t, j);
    ReportDue(d, t, j);
    hide UeLegal, UeSet, Delay, Age, SubframeOf, TransmitsAt;
    if SubframeOf(t) != j && Age(t, j) + 4 <= t {
      assert more[t + 1 - Age(t + 1, j) - 4] == ticks[t - Age(t, j) - 4];
    }
  }

  lemma ReportedTransmits(d: Duplex, j: nat)
    requires Supported(d) && j < 10 && Delay(d, j) > 0
    ensures TransmitsAt(d, j)
  {
  }

  lemma StartHolds(p: Limits, d: Duplex, j: nat)
    requires ValidLimits(p) && Supported(d) && j < 10
    ensures var l := Run(p, d, []);
            UeHolds(d, [], l.ue, j) && RingHolds(d, [], l.enb.subframeTx, l.enb.harqIds, j)
  {
  }

  lemma {:induction false} RunHolds(p: Limits, d: Duplex, ticks: seq<Tick>, j: nat)
    requires ValidLimits(p) && Supported(d) && j < 10 && Delay(d, j) > 0
    ensures var l := Run(p, d, ticks);
            UeHolds(d, ticks, l.ue, j) && RingHolds(d, ticks, l.enb.subframeTx, l.enb.harqIds, j)
  {
    hide Run, UeHolds, RingHolds, Valid, Delay;
    StartHolds(p, d, j);
    if ticks != [] {
      var t := |ticks| - 1;
      RunHolds(p, d, ticks[..t], j);
      TickHolds(p, d, ticks[..t], ticks[t], j);
      assert ticks == ticks[..t] + [ticks[t]];
    }
  }

  lemma TickHolds(p: Limits, d: Duplex, ticks: seq<Tick>, k: Tick, j: nat)
    requires ValidLimits(p) && Supported(d) && j < 10 && Delay(d, j) > 0
    requires var l := Run(p, d, ticks);
             UeHolds(d, ticks, l.ue, j) && RingHolds(d, ticks, l.enb.subframeTx, l.enb.harqIds, j)
    ensures var l := Run(p, d, ticks + [k]);
            UeHolds(d, ticks + [k], l.ue, j) && RingHolds(d, ticks + [k], l.enb.subframeTx, l.enb.harqIds, j)
  {
    var t, l := |ticks|, Run(p, d, ticks);
    RunSnoc(p, d, ticks, k);
    var r := UplinkPart(p, d, l, t, k);
    var next := Prepare(p, d, r.enb, t, k);
    hide Run, UplinkPart, Prepare, Listen, UeHolds, RingHolds, Delay, Age, SubframeOf;
    UplinkKeepsEntry(p, d, l, t, k, j);
    ReportedTransmits(d, j);
    PrepareEntry(p, d, r.enb, t, k, j);
    RingStep(d, ticks, k, l.enb.subframeTx, l.enb.harqIds, next.subframeTx, next.harqIds, j);
    UeStep(d, ticks, k, l.ue, r.ue, j);
  }

  lemma WhenDue(d: Duplex, ticks: seq<Tick>, ue: seq<HarqStatus>, tx: seq<bool>, ids: seq<nat>, j: nat)
    requires |ue| == |tx| == |ids| == 10 && j < 10 && UeHolds(d, ticks, ue, j) && RingHolds(d, ticks, tx, ids, j)
    requires Age(|ticks|, j) == Delay(d, j) && Age(|ticks| + 4, j) == ReadAge(d, j)
    ensures var sent, read := SentTick(d, ticks, j), ReadTick(d, ticks, j);
            && ue[j].send == GrantedIn(sent) && (GrantedIn(sent) ==> ue[j].ack == if sent.value.decoded then 1 else 0)
            && tx[j] == GrantedIn(read) && (GrantedIn(read) ==> ids[j] == read.value.grant.value.pid)
  {
    assert ReadAge(d, j) > 0;
    hide Age, Delay, ReadAge;
  }

  /** When its report is due: the terminal's record is about the block that was on the air, the ring entry about the block
      the base station prepared last. */
  lemma {:induction false} RecordsWhenDue(p: Limits, d: Duplex, ticks: seq<Tick>, j: nat)
    requires ValidLimits(p) && Supported(d) && Reported(d, |ticks|, j)
    ensures var l, sent, read := Run(p, d, ticks), SentTick(d, ticks, j), ReadTick(d, ticks, j);
            && l.ue[j].send == GrantedIn(sent)
            && (GrantedIn(sent) ==> l.ue[j].ack == if sent.value.decoded then 1 else 0)
            && l.enb.subframeTx[j] == GrantedIn(read)
            && (GrantedIn(read) ==> l.enb.harqIds[j] == read.value.grant.value.pid)
  {
    hide Run, Delay, ReadAge, Age, SubframeOf, UeLegal, UeSet, UeHolds, RingHolds, SentTick, ReadTick, GrantedIn;
    ReportDue(d, |ticks|, j);
    BothClocks(d, |ticks|, j);
    RunHolds(p, d, ticks, j);
    var l := Run(p, d, ticks);
    WhenDue(d, ticks, l.ue, l.enb.subframeTx, l.enb.harqIds, j);
  }

  /* ---------- which reports are read rightly ---------- */

  /** Base station and terminal mean the same block of subframe j, or both none. */
  predicate Agree(d: Duplex, ticks: seq<Tick>, l: Link, j: nat)
    requires |l.enb.subframeTx| == |l.enb.harqIds| == |l.ue| == 10 && j < 10
  {
    var k := SentTick(d, ticks, j);
    && l.enb.subframeTx[j] == l.ue[j].send == GrantedIn(k)
    && (GrantedIn(k) ==>
          l.enb.harqIds[j] == k.value.grant.value.pid && l.ue[j].ack == if k.value.decoded then 1 else 0)
  }

  lemma TimelyReadIsSent(d: Duplex, ticks: seq<Tick>, j: nat)
    requires Supported(d) && Reported(d, |ticks|, j) && Delay(d, j) <= 6
    ensures ReadTick(d, ticks, j) == SentTick(d, ticks, j)
  {
    ReportDue(d, |ticks|, j);
    hide Delay, UeLegal, UeSet, SubframeOf;
  }

  lemma {:induction false} BothEndsAgree(p: Limits, d: Duplex, ticks: seq<Tick>, j: nat)
    requires ValidLimits(p) && Supported(d) && Reported(d, |ticks|, j) && Delay(d, j) <= 6
    ensures Agree(d, ticks, Run(p, d, ticks), j)
  {
    TimelyReadIsSent(d, ticks, j);
    RecordsWhenDue(p, d, ticks, j);
    hide Run, Reported, SentTick, ReadTick, Delay;
  }

  /** Ticks without reports, of which tick a grants process 0 and the others nothing. */
  function LoneGrant(n: nat, a: nat): (r: seq<Tick>)
    ensures |r| == n
  {
    seq(n, i => Tick(if i == a then Some(Grant(0, 0)) else None, true, false, false, false))
  }

  /** A run at whose end the report on j is due, seven subframes after the block. */
  function LateRun(j: nat): seq<Tick>
  {
    var n := if j == 0 then 17 else 12;
    LoneGrant(n, n - 11)
  }

  lemma LateRunFacts(d: Duplex, j: nat)
    requires Supported(d) && j < 10 && Delay(d, j) == 7
    ensures j == 0 || j == 5
    ensures var r := LateRun(j);
            && Reported(d, |r|, j) && GrantedIn(SentTick(d, r, j)) && SentTick(d, r, j).value == r[|r| - 11]
            && forall i :: Reported(d, |r|, i) ==> !GrantedIn(ReadTick(d, r, i))
  {
    var r := LateRun(j);
    assert SubframeOf(|r|) == (j + 7) % 10;
    forall i | Reported(d, |r|, i)
      ensures !GrantedIn(ReadTick(d, r, i))
    {
      ReportDue(d, |r|, i);
      assert ReadAge(d, i) <= 10;
    }
  }

  /** The ring entry read for a report is about the block that was on the air, in every run, exactly if the report comes at
      most six subframes after the block. */
  lemma {:induction false} BothEndsAgreeExactly(p: Limits, d: Duplex, j: nat)
    requires ValidLimits(p) && Supported(d) && j < 10 && Delay(d, j) > 0
    ensures (forall ticks :: Reported(d, |ticks|, j) ==> Agree(d, ticks, Run(p, d, ticks), j)) <==> Delay(d, j) <= 6
  {
    if Delay(d, j) <= 6 {
      forall ticks | Reported(d, |ticks|, j)
        ensures Agree(d, ticks, Run(p, d, ticks), j)
      {
        BothEndsAgree(p, d, ticks, j);
      }
    } else {
      var r := LateRun(j);
      LateRunFacts(d, j);
      RecordsWhenDue(p, d, r, j);
      assert !Agree(d, r, Run(p, d, r), j);
    }
  }

  /** The reports all of whose entries are read rightly: every one in FDD, those in subframes 3 and 8 of configuration 1 and
      in subframes 3 and 4 of configuration 3. */
  lemma TimelyReportsExactly(d: Duplex, t: nat)
    requires Supported(d) && UeLegal(d, SubframeOf(t))
    ensures (forall j :: Reported(d, t, j) ==> Delay(d, j) <= 6)
       <==> !((d == Tdd(1) && SubframeOf(t) in {2, 7}) || (d == Tdd(3) && SubframeOf(t) == 2))
  {
    assert 5 in [5, 6] && 0 in [0, 1];
    assert d == Tdd(1) && SubframeOf(t) == 7 ==> Reported(d, t, 0);
    assert d.Tdd? && SubframeOf(t) == 2 ==> Reported(d, t, 5);
  }

  lemma ReportedAt(d: Duplex, t: nat, j: nat)
    requires Supported(d) && j < 10 && Delay(d, j) > 0
    ensures Reported(d, t, j) <==> SubframeOf(t) == (j + Delay(d, j)) % 10
  {
    ReportDue(d, t, j);
    AgeBySubframe(t, j);
    hide UeLegal, UeSet;
  }

  /** With the two parity threads, under every schedule the front end allows, every report on j reads the right entry. */
  ghost predicate ThreadedRight(d: Duplex, j: nat)
    requires Supported(d) && Delay(d, j) <= 10
  {
    forall schedule, k | SubframeRing.Possible(schedule) && 0 <= k < |SubframeRing.Run(schedule).lookups|
      && Reported(d, SubframeRing.Run(schedule).lookups[k].tick, j) ::
      SubframeRing.ReadsRight(SubframeRing.Run(schedule).lookups[k], Delay(d, j))
  }

  /** That is so exactly for the subframes with delays 4 and 6. */
  lemma ThreadedReportsExactly(d: Duplex, j: nat)
    requires Supported(d) && j < 10 && Delay(d, j) > 0
    ensures ThreadedRight(d, j) <==> d.Fdd? || (d == Tdd(1) && j in {1, 4, 6, 9}) || (d == Tdd(3) && j in {0, 6, 7})
  {
    var delay := Delay(d, j);
    var sf := (j + delay) % 10;
    assert delay == 4 || delay == 6 <==> d.Fdd? || (d == Tdd(1) && j in {1, 4, 6, 9}) || (d == Tdd(3) && j in {0, 6, 7});
    SubframeRing.ReadsRightExactly(delay, sf);
    assert ThreadedRight(d, j) <==> SubframeRing.AllRight(delay, sf) by {
      ThreadedIsAllRight(d, j);
    }
  }

  lemma ThreadedIsAllRight(d: Duplex, j: nat)
    requires Supported(d) && j < 10 && Delay(d, j) > 0
    ensures ThreadedRight(d, j) <==> SubframeRing.AllRight(Delay(d, j), (j + Delay(d, j)) % 10)
  {
    forall t: nat
      ensures Reported(d, t, j) <==> SubframeOf(t) == (j + Delay(d, j)) % 10
    {
      ReportedAt(d, t, j);
    }
    hide Reported, SubframeOf, Delay, SubframeRing.Run, SubframeRing.ReadsRight, SubframeRing.Possible;
  }

  /* ---------- what a report does ---------- */

  /** Every block the report is about was decoded by the terminal. */
  ghost predicate AllDecoded(d: Duplex, ticks: seq<Tick>)
    requires Supported(d)
  {
    forall j: nat :: InReport(d, ticks, j) ==> SentTick(d, ticks, j).value.decoded
  }

  lemma {:induction false} BitMeansAllDecoded(p: Limits, d: Duplex, ticks: seq<Tick>)
    requires ValidLimits(p) && Supported(d) && UeLegal(d, SubframeOf(|ticks|))
    ensures UeBit(d, SubframeOf(|ticks|), Run(p, d, ticks).ue)
       <==> AllDecoded(d, ticks) && exists j :: InReport(d, ticks, j)
  {
    var ue, sf := Run(p, d, ticks).ue, SubframeOf(|ticks|);
    var r := UeSet(d, sf);
    forall k | 0 <= k < |r|
      ensures Reported(d, |ticks|, r[k]) && ue[r[k]].send == InReport(d, ticks, r[k])
      ensures ue[r[k]].send ==> (ue[r[k]].ack == 1 <==> SentTick(d, ticks, r[k]).value.decoded)
    {
      RecordsWhenDue(p, d, ticks, r[k]);
    }
    hide Run, UeSet, UeLegal, SentTick, SubframeOf, Delay;
    UniformOnSet(d, ticks, ue, r);
  }

  lemma UniformOnSet(d: Duplex, ticks: seq<Tick>, ue: seq<HarqStatus>, r: seq<nat>)
    requires Supported(d) && UeLegal(d, SubframeOf(|ticks|)) && |ue| == 10 && r == UeSet(d, SubframeOf(|ticks|))
    requires forall k :: 0 <= k < |r| ==>
               && r[k] < 10 && ue[r[k]].send == InReport(d, ticks, r[k])
               && (ue[r[k]].send ==> (ue[r[k]].ack == 1 <==> SentTick(d, ticks, r[k]).value.decoded))
    ensures AnySent(ue, r) && AllAcked(ue, r) <==> AllDecoded(d, ticks) && exists j :: InReport(d, ticks, j)
  {
    hide UeSet, UeLegal, SentTick, SubframeOf, Delay;
    if j :| InReport(d, ticks, j) {
      var k :| 0 <= k < |r| && r[k] == j;
      assert ue[r[k]].send;
    }
    if AllAcked(ue, r) {
      forall j: nat | InReport(d, ticks, j)
        ensures SentTick(d, ticks, j).value.decoded
      {
        var k :| 0 <= k < |r| && r[k] == j;
        assert ue[r[k]].send;
      }
    }
  }

  /** The terminal's status is positive, so that it reports, exactly if a block it received is in the report. */
  lemma {:induction false} StatusExactly(p: Limits, d: Duplex, ticks: seq<Tick>)
    requires ValidLimits(p) && Supported(d) && UeLegal(d, SubframeOf(|ticks|))
    ensures ReportStatus(d, SubframeOf(|ticks|), Run(p, d, ticks).ue) > 0 <==> exists j :: InReport(d, ticks, j)
  {
    var ue, sf := Run(p, d, ticks).ue, SubframeOf(|ticks|);
    var r := UeSet(d, sf);
    RunGrantsCount(p, d, ticks);
    StatusMeans(d, sf, ue);
    forall k | 0 <= k < |r|
      ensures ue[r[k]].send == InReport(d, ticks, r[k])
    {
      RecordsWhenDue(p, d, ticks, r[k]);
    }
    if j :| InReport(d, ticks, j) {
      var k :| 0 <= k < |r| && r[k] == j;
      assert ue[r[k]].send;
    }
    hide Run, UeSet, UeLegal, SentTick, SubframeOf, Delay, ReportStatus;
  }

  lemma {:induction false} RunGrantsCount(p: Limits, d: Duplex, ticks: seq<Tick>)
    requires ValidLimits(p) && Supported(d)
    ensures GrantsCount(Run(p, d, ticks).ue)
  {
    if ticks != [] {
      var t := |ticks| - 1;
      RunGrantsCount(p, d, ticks[..t]);
      ReportKeepsGrants(d, SubframeOf(t), Run(p, d, ticks[..t]).ue);
    }
    hide Prepare, Feedback, UeSet, Granted;
  }

  lemma ReportKeepsGrants(d: Duplex, sf: nat, ue: seq<HarqStatus>)
    requires |ue| == 10 && sf < 10 && GrantsCount(ue)
    ensures UeLegal(d, sf) ==> GrantsCount(AfterReset(d, sf, ue))
  {
  }

  lemma {:induction false} ReadIsTouched(p: Limits, d: Duplex, ticks: seq<Tick>, pid: nat)
    requires ValidLimits(p) && Supported(d) && UeLegal(d, SubframeOf(|ticks|))
    ensures Touched(p, d, Run(p, d, ticks).enb, SubframeOf(|ticks|), UlAckM(d, SubframeOf(|ticks|)), pid)
       <==> exists j :: Reads(d, ticks, j, pid)
  {
    var s, sf := Run(p, d, ticks).enb, SubframeOf(|ticks|);
    if j :| Reads(d, ticks, j, pid) {
      RecordsWhenDue(p, d, ticks, j);
      TablesAgree(d, sf, j);
      var m :| 0 <= m < UlAckM(d, sf) && UlAckDlSubframe(d, sf, m) == j;
      assert Names(p, d, s, sf, m, pid);
    }
    if Touched(p, d, s, sf, UlAckM(d, sf), pid) {
      var m :| 0 <= m < UlAckM(d, sf) && Names(p, d, s, sf, m, pid);
      var j := UlAckDlSubframe(d, sf, m);
      DlSubframeInRange(d, sf, m);
      TablesAgree(d, sf, j);
      RecordsWhenDue(p, d, ticks, j);
      assert Reads(d, ticks, j, pid);
    }
  }

  /** A report closes every block in flight whose process the ring names, if all it is about was decoded, and otherwise
      refuses them all. */
  ghost predicate Booked(d: Duplex, ticks: seq<Tick>, s: Dlsch, t: Dlsch, pid: nat)
    requires Supported(d) && pid < |s.processes| && pid < |t.processes|
    requires pid < |s.ack| && pid < |t.ack| && pid < |s.nak| && pid < |t.nak|
  {
    && (AllDecoded(d, ticks) ==>
          && t.nak == s.nak && t.l2Errors == s.l2Errors
          && (s.processes[pid].status.Active? ==> Closed(s, t, pid)))
    && (!AllDecoded(d, ticks) ==>
          && t.ack == s.ack && t.totalTbs == s.totalTbs
          && (s.processes[pid].status.Active? ==> Refused(s, t, pid)))
  }

  lemma {:induction false} ReportIsBooked(p: Limits, d: Duplex, ticks: seq<Tick>, k: Tick, i: nat, j: nat, pid: nat)
    requires ValidLimits(p) && Supported(d) && k.processed && InReport(d, ticks, i) && Reads(d, ticks, j, pid) && pid < p.mDlHarq
    ensures var l := Run(p, d, ticks);
            Booked(d, ticks, l.enb, UplinkPart(p, d, l, |ticks|, k).enb, pid)
  {
    var l, sf := Run(p, d, ticks), SubframeOf(|ticks|);
    var bit := UeBit(d, sf, l.ue);
    BitMeansAllDecoded(p, d, ticks);
    ReadIsTouched(p, d, ticks, pid);
    if bit {
      UniformAck(p, d, l.enb, sf, ReportOf(k, bit), UlAckM(d, sf), pid);
    } else {
      UniformNak(p, d, l.enb, sf, ReportOf(k, bit), UlAckM(d, sf), pid);
    }
    hide Run, Touched, Reads, UeBit, UeLegal, UeSet, UlAckM, Closed, Refused, AllDecoded, InReport;
  }

  /** Over every run, for a block reported at most six subframes after it was on the air: if the terminal decoded every block
      of the report, the process of this one, if in flight, is closed as acknowledged and nothing is counted as refused or
      lost; if it missed one, nothing is acknowledged and the process is refused and goes to a later round or is dropped. */
  lemma {:induction false} NoFalseAck(p: Limits, d: Duplex, ticks: seq<Tick>, k: Tick, j: nat)
    requires ValidLimits(p) && Supported(d) && k.processed && InReport(d, ticks, j) && Delay(d, j) <= 6
    requires SentTick(d, ticks, j).value.grant.value.pid < p.mDlHarq
    ensures var l := Run(p, d, ticks);
            Booked(d, ticks, l.enb, UplinkPart(p, d, l, |ticks|, k).enb, SentTick(d, ticks, j).value.grant.value.pid)
  {
    TimelyReadIsSent(d, ticks, j);
    var pid := SentTick(d, ticks, j).value.grant.value.pid;
    assert Reads(d, ticks, j, pid);
    ReportIsBooked(p, d, ticks, k, j, j, pid);
  }

  /** A report leaves every process that the ring does not name for it as it was. */
  lemma {:induction false} OtherProcessesUntouched(p: Limits, d: Duplex, ticks: seq<Tick>, k: Tick, pid: nat)
    requires ValidLimits(p) && Supported(d) && pid < p.mDlHarq && UeLegal(d, SubframeOf(|ticks|))
    requires forall j :: !Reads(d, ticks, j, pid)
    ensures var l := Run(p, d, ticks);
            UplinkPart(p, d, l, |ticks|, k).enb.processes[pid] == l.enb.processes[pid]
  {
    var l, sf := Run(p, d, ticks), SubframeOf(|ticks|);
    var bit := UeBit(d, sf, l.ue);
    ReadIsTouched(p, d, ticks, pid);
    if bit {
      UniformAck(p, d, l.enb, sf, ReportOf(k, bit), UlAckM(d, sf), pid);
    } else {
      UniformNak(p, d, l.enb, sf, ReportOf(k, bit), UlAckM(d, sf), pid);
    }
    hide Run, Touched, Reads, UeBit, UeLegal, UeSet, UlAckM, Closed, Refused;
  }

  lemma {:induction false} OnlyReadAreClosed(p: Limits, d: Duplex, ticks: seq<Tick>, k: Tick, pid: nat)
    requires ValidLimits(p) && Supported(d) && pid < p.mDlHarq && UeLegal(d, SubframeOf(|ticks|))
    ensures var l := Run(p, d, ticks);
            UplinkPart(p, d, l, |ticks|, k).enb.ack[pid] != l.enb.ack[pid] ==>
              AllDecoded(d, ticks) && exists j :: Reads(d, ticks, j, pid)
  {
    var l, sf := Run(p, d, ticks), SubframeOf(|ticks|);
    var bit := UeBit(d, sf, l.ue);
    BitMeansAllDecoded(p, d, ticks);
    ReadIsTouched(p, d, ticks, pid);
    if bit {
      UniformAck(p, d, l.enb, sf, ReportOf(k, bit), UlAckM(d, sf), pid);
    } else {
      UniformNak(p, d, l.enb, sf, ReportOf(k, bit), UlAckM(d, sf), pid);
    }
    hide Run, Touched, Reads, UeBit, UeLegal, UeSet, UlAckM, Closed, Refused, AllDecoded, InReport;
  }

  /** In a timely report a process is closed as acknowledged only if the terminal decoded the block it carried, and every
      other block of the report. */
  lemma {:induction false} OnlyDecodedAreClosed(p: Limits, d: Duplex, ticks: seq<Tick>, k: Tick, pid: nat)
    requires ValidLimits(p) && Supported(d) && pid < p.mDlHarq && UeLegal(d, SubframeOf(|ticks|))
    requires forall j :: Reported(d, |ticks|, j) ==> Delay(d, j) <= 6
    ensures var l := Run(p, d, ticks);
            UplinkPart(p, d, l, |ticks|, k).enb.ack[pid] != l.enb.ack[pid] ==>
              AllDecoded(d, ticks)
              && exists j :: InReport(d, ticks, j) && SentTick(d, ticks, j).value.grant.value.pid == pid
  {
    hide Run, UplinkPart, AllDecoded, Delay, SentTick, ReadTick, UeLegal, UeSet, SubframeOf;
    OnlyReadAreClosed(p, d, ticks, k, pid);
    if j :| Reads(d, ticks, j, pid) {
      TimelyReadIsSent(d, ticks, j);
      assert InReport(d, ticks, j) && SentTick(d, ticks, j).value.grant.value.pid == pid;
    }
  }

  /* ---------- one block, from grant to report ---------- */

  /** No later tick grants process pid, and no earlier one whose ring entry is read for a report only after tick a. */
  predicate Alone(d: Duplex, ticks: seq<Tick>, a: nat, pid: nat)
  {
    forall b :: 0 <= b < |ticks| && b != a && (b < a ==> a < b + ReadAge(d, SubframeOf(b + 4))) && Granted(ticks[b]) ==>
      ticks[b].grant.value.pid != pid
  }

  lemma LastMet(t: nat, j: nat)
    requires j < 10 && Age(t, j) <= t
    ensures SubframeOf(t - Age(t, j)) == j
  {
    AgeBySubframe(t, j);
    var q, sf, age := t / 10, t % 10, Age(t, j);
    assert t - age == 10 * (if sf > j then q else q - 1) + j;
  }

  /** Tick a grants process pid, alone, for a block of subframe j whose timely report is due at time |ticks|. */
  predicate Sole(d: Duplex, ticks: seq<Tick>, j: nat, a: nat, pid: nat)
    requires Supported(d)
  {
    && Reported(d, |ticks|, j) && Delay(d, j) <= 6 && a + Delay(d, j) + 4 == |ticks|
    && Granted(ticks[a]) && ticks[a].grant.value.pid == pid && Alone(d, ticks, a, pid)
  }

  /** Before its own report no report is booked on the block. */
  lemma NoEarlierRead(d: Duplex, ticks: seq<Tick>, j: nat, a: nat, n: nat, i: nat, pid: nat)
    requires Supported(d) && Sole(d, ticks, j, a, pid) && a < n < |ticks|
    ensures !Reads(d, ticks[..n], i, pid)
  {
    hide Reported, Delay, ReadAge, Age, SubframeOf;
    if Reads(d, ticks[..n], i, pid) {
      ReadWhenReported(d, n, i);
      LastMet(n + 4, i);
      var b := n - ReadAge(d, i);
      assert ticks[..n][b] == ticks[b];
      assert SubframeOf(b + 4) == i;
      assert b == a;
      SoleIsReadAt(d, ticks, j, a, pid);
    }
  }

  lemma SoleIsReadAt(d: Duplex, ticks: seq<Tick>, j: nat, a: nat, pid: nat)
    requires Supported(d) && Sole(d, ticks, j, a, pid)
    ensures SubframeOf(a + 4) == j && a + ReadAge(d, j) == |ticks|
  {
    ReadWhenReported(d, |ticks|, j);
    LastMet(|ticks| + 4, j);
    hide Reported, Alone, Age, SubframeOf;
  }

  lemma {:induction false} TickLeavesProcess(p: Limits, d: Duplex, ticks: seq<Tick>, k: Tick, pid: nat)
    requires ValidLimits(p) && Supported(d) && pid < p.mDlHarq && (Granted(k) ==> k.grant.value.pid != pid)
    requires forall i :: !Reads(d, ticks, i, pid)
    ensures Run(p, d, ticks + [k]).enb.processes[pid] == Run(p, d, ticks).enb.processes[pid]
  {
    RunSnoc(p, d, ticks, k);
    var l := Run(p, d, ticks);
    if UeLegal(d, SubframeOf(|ticks|)) {
      OtherProcessesUntouched(p, d, ticks, k, pid);
    } else {
      assert UplinkPart(p, d, l, |ticks|, k) == l;
    }
    PrepareLeavesProcess(p, d, UplinkPart(p, d, l, |ticks|, k).enb, |ticks|, k, pid);
    hide Run, UplinkPart, Prepare, Listen, Reads, UeLegal, SubframeOf;
  }

  lemma PrepareLeavesProcess(p: Limits, d: Duplex, s: Dlsch, t: nat, k: Tick, pid: nat)
    requires Valid(p, s) && pid < 8 && (Granted(k) ==> k.grant.value.pid != pid)
    ensures Prepare(p, d, s, t, k).processes[pid] == s.processes[pid]
  {
    hide SubframeOf, TransmitsAt;
  }

  function ProcessAfter(p: Limits, d: Duplex, ticks: seq<Tick>, n: nat, pid: nat): Process
    requires ValidLimits(p) && Supported(d) && n <= |ticks| && pid < 8
  {
    Run(p, d, ticks[..n]).enb.processes[pid]
  }

  lemma {:induction false} NextTickLeaves(p: Limits, d: Duplex, ticks: seq<Tick>, j: nat, a: nat, n: nat, pid: nat)
    requires ValidLimits(p) && Supported(d) && Sole(d, ticks, j, a, pid) && pid < p.mDlHarq && a < n < |ticks|
    ensures ProcessAfter(p, d, ticks, n + 1, pid) == ProcessAfter(p, d, ticks, n, pid)
  {
    var init := ticks[..n];
    assert Granted(ticks[n]) ==> ticks[n].grant.value.pid != pid;
    assert ticks[..n + 1] == init + [ticks[n]];
    hide Run, Reads, Sole;
    forall i
      ensures !Reads(d, init, i, pid)
    {
      NoEarlierRead(d, ticks, j, a, n, i, pid);
    }
    TickLeavesProcess(p, d, init, ticks[n], pid);
  }

  lemma {:induction false} StaysInFlight(p: Limits, d: Duplex, ticks: seq<Tick>, j: nat, a: nat, n: nat, pid: nat)
    requires ValidLimits(p) && Supported(d) && Sole(d, ticks, j, a, pid) && pid < p.mDlHarq && a < n <= |ticks|
    ensures ProcessAfter(p, d, ticks, n, pid) == ProcessAfter(p, d, ticks, a + 1, pid)
    decreases n
  {
    hide ProcessAfter, Sole;
    if n > a + 1 {
      StaysInFlight(p, d, ticks, j, a, n - 1, pid);
      NextTickLeaves(p, d, ticks, j, a, n - 1, pid);
    }
  }

  lemma {:induction false} GrantStartsBlock(p: Limits, d: Duplex, ticks: seq<Tick>, k: Tick)
    requires ValidLimits(p) && Supported(d) && Granted(k) && TransmitsAt(d, SubframeOf(|ticks| + 4))
    ensures var pid := k.grant.value.pid;
            var x, y := Run(p, d, ticks).enb.processes[pid], Run(p, d, ticks + [k]).enb.processes[pid];
            y.status.Active? && y.tbs == if y.round == 0 then k.grant.value.tbs else x.tbs
  {
    RunSnoc(p, d, ticks, k);
    UplinkKeepsSize(p, d, Run(p, d, ticks), |ticks|, k, k.grant.value.pid);
    PreparedBlock(p, d, UplinkPart(p, d, Run(p, d, ticks), |ticks|, k).enb, |ticks|, k);
    hide Run, UplinkPart, Prepare, Listen;
  }

  lemma UplinkKeepsSize(p: Limits, d: Duplex, l: Link, t: nat, k: Tick, pid: nat)
    requires Valid(p, l.enb) && |l.ue| == 10 && Supported(d) && pid < 8
    ensures UplinkPart(p, d, l, t, k).enb.processes[pid].tbs == l.enb.processes[pid].tbs
  {
    var sf := SubframeOf(t);
    if UeLegal(d, sf) && k.processed {
      FeedbackKeepsSize(p, d, l.enb, sf, ReportOf(k, UeBit(d, sf, l.ue)), UlAckM(d, sf), pid);
    }
    hide FeedbackUpTo, UeLegal, UeBit, AfterReset;
  }

  lemma PreparedBlock(p: Limits, d: Duplex, s: Dlsch, t: nat, k: Tick)
    requires Valid(p, s) && Granted(k) && TransmitsAt(d, SubframeOf(t + 4))
    ensures var x, y := s.processes[k.grant.value.pid], Prepare(p, d, s, t, k).processes[k.grant.value.pid];
            y.status.Active? && y.round == x.round && y.tbs == if y.round == 0 then k.grant.value.tbs else x.tbs
  {
    hide SubframeOf, TransmitsAt;
  }

  /** A block whose process is not granted again before its timely report, and whose grant comes after the reports on earlier
      uses of the process were due or with them, is still in flight when the report comes, as the grant left it: with the
      grant's size if the grant started it, with its old size if it is a retransmission. In FDD a use eight subframes earlier is no obstacle. */
  lemma {:induction false} BlockIsInFlight(p: Limits, d: Duplex, ticks: seq<Tick>, j: nat, a: nat, pid: nat)
    requires ValidLimits(p) && Supported(d) && Sole(d, ticks, j, a, pid) && pid < p.mDlHarq
    ensures var x := Run(p, d, ticks).enb.processes[pid];
            && x == ProcessAfter(p, d, ticks, a + 1, pid) && x.status.Active?
            && x.tbs == if x.round == 0 then ticks[a].grant.value.tbs else ProcessAfter(p, d, ticks, a, pid).tbs
  {
    hide Run, Delay, TransmitsAt, SubframeOf, Reported, Alone;
    var before := ticks[..a];
    assert |before| == a && ticks[..|ticks|] == ticks && ticks[..a + 1] == before + [ticks[a]];
    StaysInFlight(p, d, ticks, j, a, |ticks|, pid);
    SoleIsOnAir(d, ticks, j, a, pid);
    GrantStartsBlock(p, d, before, ticks[a]);
  }

  /** A processed report then closes the block as acknowledged if the terminal decoded all the report is about, and refuses it
      otherwise. */
  lemma {:induction false} BlockIsSettled(p: Limits, d: Duplex, ticks: seq<Tick>, k: Tick, j: nat, a: nat, pid: nat)
    requires ValidLimits(p) && Supported(d) && Sole(d, ticks, j, a, pid) && pid < p.mDlHarq && k.processed
    ensures var s, t := Run(p, d, ticks).enb, UplinkPart(p, d, Run(p, d, ticks), |ticks|, k).enb;
            if AllDecoded(d, ticks) then Closed(s, t, pid) else Refused(s, t, pid)
  {
    BlockIsInFlight(p, d, ticks, j, a, pid);
    SoleIsReported(d, ticks, j, a, pid);
    NoFalseAck(p, d, ticks, k, j);
    hide Run, UplinkPart, AllDecoded, Closed, Refused, Sole, InReport, ProcessAfter;
  }

  lemma SoleIsReported(d: Duplex, ticks: seq<Tick>, j: nat, a: nat, pid: nat)
    requires Supported(d) && Sole(d, ticks, j, a, pid)
    ensures InReport(d, ticks, j) && SentTick(d, ticks, j).value == ticks[a] && Delay(d, j) <= 6
    ensures SentTick(d, ticks, j).value.grant.value.pid == pid
  {
    hide Delay, UeLegal, UeSet, Alone;
  }

  lemma SoleIsOnAir(d: Duplex, ticks: seq<Tick>, j: nat, a: nat, pid: nat)
    requires Supported(d) && Sole(d, ticks, j, a, pid)
    ensures TransmitsAt(d, SubframeOf(a + 4))
  {
    ReportDue(d, |ticks|, j);
    LastMet(|ticks|, j);
    ReportedTransmits(d, j);
  }

  /** On PUCCH, without an opportunity for a scheduling request, the base station looks for a report exactly if the ring entry of
      a subframe of the reported set is set, other than 1 and 6 of configuration 1: a lone block there is never looked for. At
      delay seven the entry belongs to the block just prepared. */
  lemma LookedForExactly(d: Duplex, nRb: nat, n1: nat, u: Pucch.Downlink, subframe: nat)
    requires Supported(d) && subframe < 10 && UeLegal(d, subframe) && Pucch.Shape(u)
    ensures (exists x :: Pucch.Uses(Pucch.N1Pucch(d, nRb, n1, u, subframe), x))
       <==> exists k :: 0 <= k < |UeSet(d, subframe)| && u.sent[UeSet(d, subframe)[k]]
                        && !(d == Tdd(1) && UeSet(d, subframe)[k] in {1, 6})
  {
    var r, v := UeSet(d, subframe), Pucch.N1Pucch(d, nRb, n1, u, subframe);
    assert v.Some? <==> r != [];
    if r != [] {
      assert v.value.0.Some? <==> u.sent[r[0]];
      assert v.value.1.Some? <==> d == Tdd(3) && u.sent[r[1]];
      assert v.value.0.Some? ==> Pucch.Uses(v, v.value.0.value);
      assert v.value.1.Some? ==> Pucch.Uses(v, v.value.1.value);
      assert d == Tdd(1) && |r| == 2 ==> r[1] in {1, 6};
      assert d == Tdd(1) ==> r[0] !in {1, 6};
    }
  }

  /* ---------- reports that come seven subframes late ---------- */

  lemma LateEntry(d: Duplex, ticks: seq<Tick>, j: nat)
    requires Supported(d) && Reported(d, |ticks|, j) && Delay(d, j) == 7 && |ticks| >= 1 && Granted(ticks[|ticks| - 1])
    ensures Reads(d, ticks, j, ticks[|ticks| - 1].grant.value.pid)
    ensures SubframeOf(|ticks| - 1 + 4) == j && TransmitsAt(d, j)
  {
    ReportDue(d, |ticks|, j);
    BothClocks(d, |ticks|, j);
    AgeBySubframe(|ticks| - 1 + 4, j);
    ReportedTransmits(d, j);
  }

  lemma PreparedIsActive(p: Limits, d: Duplex, s: Dlsch, t: nat, k: Tick)
    requires Valid(p, s) && TransmitsAt(d, SubframeOf(t + 4)) && Granted(k)
    ensures Prepare(p, d, s, t, k).processes[k.grant.value.pid].status.Active?
  {
  }

  lemma {:induction false} JustPrepared(p: Limits, d: Duplex, ticks: seq<Tick>, j: nat)
    requires ValidLimits(p) && Supported(d) && Reported(d, |ticks|, j) && Delay(d, j) == 7
    requires |ticks| >= 1 && Granted(ticks[|ticks| - 1])
    ensures var pid := ticks[|ticks| - 1].grant.value.pid;
            Reads(d, ticks, j, pid) && Run(p, d, ticks).enb.processes[pid].status.Active?
  {
    hide Delay, UplinkPart, Prepare, Listen, Reads, Reported, TransmitsAt, SubframeOf;
    var t := |ticks| - 1;
    LateEntry(d, ticks, j);
    PreparedIsActive(p, d, UplinkPart(p, d, Run(p, d, ticks[..t]), t, ticks[t]).enb, t, ticks[t]);
  }

  /** Then the base station books the report on the block it has just prepared, which is on the air only three subframes
      later: it is closed unsent as acknowledged if the terminal decoded what the report is about, and refused otherwise. */
  lemma {:induction false} LateReportHitsNextBlock(p: Limits, d: Duplex, ticks: seq<Tick>, k: Tick, i: nat, j: nat)
    requires ValidLimits(p) && Supported(d) && k.processed && InReport(d, ticks, i)
    requires Reported(d, |ticks|, j) && Delay(d, j) == 7
    requires Granted(ticks[|ticks| - 1]) && ticks[|ticks| - 1].grant.value.pid < p.mDlHarq
    ensures var pid, l := ticks[|ticks| - 1].grant.value.pid, Run(p, d, ticks);
            var t := UplinkPart(p, d, l, |ticks|, k).enb;
            if AllDecoded(d, ticks) then Closed(l.enb, t, pid) else Refused(l.enb, t, pid)
  {
    JustPrepared(p, d, ticks, j);
    ReportIsBooked(p, d, ticks, k, i, j, ticks[|ticks| - 1].grant.value.pid);
    hide Run, UplinkPart, Reads, Closed, Refused, AllDecoded;
  }

  /** For example: in configuration 1 process 0 is granted in subframe 5 of one frame and process 1 in that of the next. The
      terminal acknowledges the first block, and process 1 is closed though the terminal will not decode its block. */
  lemma {:induction false} FalseAck(p: Limits, k: Tick)
    requires ValidLimits(p) && p.mDlHarq >= 2 && k.processed
    ensures var r := LoneGrant(12, 1)[11 := Tick(Some(Grant(1, 0)), false, false, false, false)];
            var l := Run(p, Tdd(1), r);
            AllDecoded(Tdd(1), r) && Closed(l.enb, UplinkPart(p, Tdd(1), l, 12, k).enb, 1)
  {
    var r := LoneGrant(12, 1)[11 := Tick(Some(Grant(1, 0)), false, false, false, false)];
    assert SubframeOf(12) == 2;
    assert InReport(Tdd(1), r, 5) by { assert 5 in [5, 6]; }
    assert AllDecoded(Tdd(1), r);
    hide Run, UplinkPart, AllDecoded, InReport, Closed;
    LateReportHitsNextBlock(p, Tdd(1), r, k, 5, 5);
  }

  lemma {:induction false} LoneGrantRun(p: Limits, d: Duplex, n: nat, a: nat)
    requires ValidLimits(p) && Supported(d) && TransmitsAt(d, SubframeOf(a + 4))
    ensures Run(p, d, LoneGrant(n, a)).enb.processes[0] == Process(if a < n then Active else Idle, 0, 0)
  {
    hide Run, UplinkPart, Prepare, Listen, TransmitsAt, SubframeOf, Valid, Fresh;
    if n == 0 {
      StartIdle(p, d);
      assert LoneGrant(0, a) == [];
    } else {
      var before, k := LoneGrant(n - 1, a), LoneGrant(n, a)[n - 1];
      LoneGrantRun(p, d, n - 1, a);
      assert LoneGrant(n, a) == before + [k];
      RunSnoc(p, d, before, k);
      LoneGrantTick(p, d, Run(p, d, before), n - 1, k);
    }
  }

  lemma StartIdle(p: Limits, d: Duplex)
    requires ValidLimits(p) && Supported(d)
    ensures Run(p, d, []).enb.processes[0] == Process(Idle, 0, 0)
  {
  }

  lemma LoneGrantTick(p: Limits, d: Duplex, l: Link, t: nat, k: Tick)
    requires Valid(p, l.enb) && |l.ue| == 10 && Supported(d) && !k.processed && (k.grant.Some? ==> k.grant.value == Grant(0, 0))
    ensures var s := Prepare(p, d, UplinkPart(p, d, l, t, k).enb, t, k);
            s.processes[0] == if k.grant.Some? && TransmitsAt(d, SubframeOf(t + 4)) && l.enb.processes[0].round == 0
                              then Process(Active, 0, 0) else l.enb.processes[0]
  {
    hide SubframeOf, TransmitsAt, AfterReset, Feedback;
  }

  /** In every run a processed report of a block in flight does what it should to that block's process, exactly if it comes
      at most six subframes after the block. */
  lemma {:induction false} NoFalseAckExactly(p: Limits, d: Duplex, j: nat)
    requires ValidLimits(p) && p.mDlHarq >= 1 && Supported(d) && j < 10 && Delay(d, j) > 0
    ensures (forall ticks, k :: RightlyBooked(p, d, ticks, k, j)) <==> Delay(d, j) <= 6
  {
    if Delay(d, j) <= 6 {
      forall ticks, k
        ensures RightlyBooked(p, d, ticks, k, j)
      {
        if InReport(d, ticks, j) && k.processed && SentTick(d, ticks, j).value.grant.value.pid < p.mDlHarq {
          NoFalseAck(p, d, ticks, k, j);
        }
      }
    } else {
      LateReportIsLost(p, d, j);
    }
  }

  ghost predicate RightlyBooked(p: Limits, d: Duplex, ticks: seq<Tick>, k: Tick, j: nat)
    requires ValidLimits(p) && Supported(d)
  {
    InReport(d, ticks, j) && k.processed && SentTick(d, ticks, j).value.grant.value.pid < p.mDlHarq ==>
      var l := Run(p, d, ticks);
      Booked(d, ticks, l.enb, UplinkPart(p, d, l, |ticks|, k).enb, SentTick(d, ticks, j).value.grant.value.pid)
  }

  /** Without a new grant the entry has been cleared: the block was decoded and reported, and its process stays in flight. */
  lemma {:induction false} LateReportIsLost(p: Limits, d: Duplex, j: nat)
    requires ValidLimits(p) && p.mDlHarq >= 1 && Supported(d) && j < 10 && Delay(d, j) == 7
    ensures var k := Tick(None, false, true, false, false);
            && !RightlyBooked(p, d, LateRun(j), k, j) && AllDecoded(d, LateRun(j))
            && UplinkPart(p, d, Run(p, d, LateRun(j)), |LateRun(j)|, k).enb.processes[0].status.Active?
  {
    var r, k := LateRun(j), Tick(None, false, true, false, false);
    LateRunFacts(d, j);
    ReportedTransmits(d, j);
    assert SubframeOf(|r| - 11 + 4) == j;
    LoneGrantRun(p, d, |r|, |r| - 11);
    assert AllDecoded(d, r);
    forall i
      ensures !Reads(d, r, i, 0)
    {
    }
    hide Run, UplinkPart, UeLegal, UeSet, Delay, SubframeOf, SentTick, ReadTick;
    OtherProcessesUntouched(p, d, r, k, 0);
  }

  /* ---------- subframes that are never reported on ---------- */

  /** Every downlink subframe is acknowledged in some uplink subframe, by the terminal's table and by the base station's,
      except subframe 1 of configuration 3, whose place in the set of three is left out of both. */
  lemma NeverReportedExactly(d: Duplex, j: nat)
    requires Supported(d) && j < 10 && TransmitsAt(d, j)
    ensures (exists sf :: 0 <= sf < 10 && UeLegal(d, sf) && j in UeSet(d, sf)) <==> !(d == Tdd(3) && j == 1)
    ensures (exists sf, m :: 0 <= sf < 10 && 0 <= m < UlAckM(d, sf) && UlAckDlSubframe(d, sf, m) == j)
       <==> !(d == Tdd(3) && j == 1)
  {
    if d.Tdd? && !(d == Tdd(3) && j == 1) {
      var sf := (j + Delay(d, j)) % 10;
      TimesOfReport(d, j, sf);
    } else if d.Fdd? {
      TimesOfReport(d, j, (j + 4) % 10);
    }
  }

  lemma TimesOfReport(d: Duplex, j: nat, sf: nat)
    requires Supported(d) && j < 10 && TransmitsAt(d, j) && Delay(d, j) > 0 && sf == (j + Delay(d, j)) % 10
    ensures UeLegal(d, sf) && j in UeSet(d, sf)
    ensures exists m :: 0 <= m < UlAckM(d, sf) && UlAckDlSubframe(d, sf, m) == j
  {
    hide UeLegal, UeSet, UlAckM, UlAckDlSubframe, TransmitsAt, Delay;
    assert SubframeOf(sf) == sf;
    ReportedAt(d, sf, j);
    TablesAgree(d, sf, j);
  }
}
