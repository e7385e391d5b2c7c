/** The base station's uplink side of one user: HARQ rounds, the Msg3 exchange of random access and the error counter
    behind the uplink failure indication. Demodulation and decoding are inputs. */
module UlHarq {
  import opened Options
  import opened FrameTiming
  import opened Msg3Timing
  import RxTxThreads

  datatype Mode = NotSynched | Prach | RaResponse | Pusch

  datatype UlProcess = UlProcess(round: nat, scheduled: bool, phichActive: bool, phichAck: bool)

  datatype Params = Params(macEnabled: bool, mLimit: nat, maxMsg3: nat, threshold: nat)

  /** What the receiver told the rest of the system, in order. */
  datatype Mark =
    | Delivered(pid: nat)     // a block was decoded (and given to MAC when it is enabled)
    | Exhausted(pid: nat)     // a block used up its rounds
    | RaCancelled
    | Removed                 // the user's slot was freed
    | CbaDelivered            // a contention-based block was decoded
    | UlFailure               // uplink failure was indicated

  datatype Ulsch = Ulsch(
    rnti: nat,                // 0 when the slot is free
    mode: Mode,
    processes: seq<UlProcess>,
    msg3Active: bool,
    msg3Flag: bool,
    msg3At: Slot,
    errors: seq<nat>,
    consecutiveErrors: nat,
    trace: seq<Mark>)

  predicate Valid(s: Ulsch)
  {
    |s.processes| == 8 && |s.errors| == 8
  }

  /** mac_phy_remove_ue on this user's slot: clean_eNb_ulsch and zeroed statistics. PHICH requests are left standing. */
  function Remove(s: Ulsch): (t: Ulsch)
    requires Valid(s)
    ensures Valid(t)
  {
    s.(rnti := 0, mode := NotSynched, errors := seq(8, _ => 0), consecutiveErrors := 0,
       processes := seq(8, (k: nat) requires k < 8 => UlProcess(0, false, s.processes[k].phichActive, false)),
       trace := s.trace + [Removed])
  }

  /** process_Msg3. */
  function ProcessMsg3(s: Ulsch, pid: nat, frame: nat, subframe: nat): (t: Ulsch)
    requires Valid(s) && pid < 8
    ensures Valid(t)
  {
    if s.msg3Active && s.msg3At == Slot(frame, subframe) then
      s.(msg3Active := false, msg3Flag := true, processes := s.processes[pid := s.processes[pid].(scheduled := true)])
    else
      s.(msg3Flag := false)
  }

  function Failed(p: Params, d: Duplex, s: Ulsch, pid: nat, frame: nat, subframe: nat): (t: Ulsch)
    requires Valid(s) && pid < 8
    ensures Valid(t)
  {
    var round := s.processes[pid].round + 1;
    var u := s.(processes := s.processes[pid := UlProcess(round, false, true, false)]);
    if s.msg3Flag then
      if round == p.maxMsg3 then
        Remove(if p.macEnabled then u.(trace := u.trace + [RaCancelled]) else u).(msg3Active := false)
      else
        u.(msg3Active := true, msg3At := GetMsg3AllocRet(d, subframe, frame, s.msg3At))
    else if round == p.mLimit then
      u.(processes := s.processes[pid := UlProcess(0, false, false, false)],
         errors := s.errors[pid := s.errors[pid] + 1],
         consecutiveErrors := s.consecutiveErrors + 1,
         trace := s.trace + [Exhausted(pid)])
    else u
  }

  /** `keepsMsg3` is whether MAC leaves the Msg3 flag set; if not, the block was empty and the user is dropped. */
  function Decoded(p: Params, s: Ulsch, pid: nat, keepsMsg3: bool): (t: Ulsch)
    requires Valid(s) && pid < 8
    ensures Valid(t)
  {
    var u := s.(processes := s.processes[pid := UlProcess(0, false, true, true)],
                consecutiveErrors := 0, trace := s.trace + [Delivered(pid)]);
    if !s.msg3Flag then u
    else
      var v := if p.macEnabled && !keepsMsg3
               then Remove(u.(trace := u.trace + [RaCancelled])).(msg3Active := false) else u;
      v.(mode := Pusch, msg3Flag := false, errors := seq(8, _ => 0), consecutiveErrors := 0)
  }

  /** The receive side of one subframe for this user. */
  function Receive(p: Params, d: Duplex, s: Ulsch, frame: nat, subframe: nat, ok: bool, keepsMsg3: bool): (t: Ulsch)
    requires Valid(s) && HarqPid(d, frame, subframe) < 8
    ensures Valid(t)
  {
    var pid := HarqPid(d, frame, subframe);
    var u := if p.macEnabled && s.mode == RaResponse then ProcessMsg3(s, pid, frame, subframe) else s;
    if u.rnti > 0 && u.processes[pid].scheduled then
      if ok then Decoded(p, u, pid, keepsMsg3) else Failed(p, d, u, pid, frame, subframe)
    else u
  }

  /** The failure check at the start of the transmit side. */
  function CheckFailure(p: Params, s: Ulsch): (t: Ulsch)
    requires Valid(s)
    ensures Valid(t)
  {
    if s.consecutiveErrors == p.threshold then s.(consecutiveErrors := 0, trace := s.trace + [UlFailure]) else s
  }

  /** PHICH generation for the process received four subframes earlier, with no new uplink grant for it. */
  function Phich(s: Ulsch, pid: nat): (t: Ulsch)
    requires Valid(s) && pid < 8
    ensures Valid(t)
  {
    var proc := s.processes[pid];
    if s.rnti > 0 && proc.phichActive then
      s.(processes := s.processes[pid :=
           if proc.phichAck then UlProcess(0, false, false, true) else proc.(scheduled := true, phichActive := false)])
    else s
  }

  /** The random access response for a new user in this slot. A process left in a later round goes one round further. */
  function StartMsg3(d: Duplex, s: Ulsch, rnti: nat, frame: nat, subframe: nat): (t: Ulsch)
    requires Valid(s)
    ensures Valid(t)
  {
    var at := GetMsg3Alloc(d, subframe, frame);
    var pid := Msg3HarqPid(d, frame, subframe);
    s.(rnti := rnti, mode := RaResponse, msg3Active := true, msg3At := if at.Some? then at.value else s.msg3At,
       processes := seq(8, (k: nat) requires k < 8 =>
         var r := s.processes[k].round;
         s.processes[k].(phichActive := false, round := if k == pid && r > 0 then r + 1 else r)))
  }

  /* ---------- the routine itself ---------- */

  class UlschUser {
    const params: Params
    const processes: array<UlProcess>
    const errors: array<nat>
    var rnti: nat
    var mode: Mode
    var msg3Active: bool
    var msg3Flag: bool
    var msg3At: Slot
    var consecutiveErrors: nat
    ghost var trace: seq<Mark>

    ghost function State(): Ulsch
      reads this, processes, errors
    {
      Ulsch(rnti, mode, processes[..], msg3Active, msg3Flag, msg3At, errors[..], consecutiveErrors, trace)
    }

    constructor (params: Params)
      ensures this.params == params && Valid(State()) && fresh(processes) && fresh(errors)
      ensures rnti == 0 && consecutiveErrors == 0 && trace == []
    {
      this.params := params;
      processes := new UlProcess[8](_ => UlProcess(0, false, false, false));
      errors := new nat[8](_ => 0);
      rnti, mode, msg3Active, msg3Flag, msg3At, consecutiveErrors, trace := 0, NotSynched, false, false, Slot(0, 0), 0, [];
    }

    method RemoveUser()
      requires Valid(State())
      modifies this, processes, errors
      ensures State() == Remove(old(State()))
    {
      rnti := 0;
      var i := 0;
      while i < 8
        modifies processes
        invariant 0 <= i <= 8
        invariant forall k :: 0 <= k < 8 ==>
          processes[k] == if k < i then UlProcess(0, false, old(processes[k]).phichActive, false) else old(processes[k])
      {
        processes[i] := processes[i].(scheduled := false, phichAck := false, round := 0);
        i := i + 1;
      }
      forall k | 0 <= k < 8 {
        errors[k] := 0;
      }
      mode, consecutiveErrors := NotSynched, 0;
      trace := trace + [Removed];
      ghost var t := Remove(old(State()));
      assert processes[..] == t.processes && errors[..] == t.errors;
    }

    method PrepareMsg3(pid: nat, frame: nat, subframe: nat)
      requires Valid(State()) && pid < 8
      modifies this`msg3Active, this`msg3Flag, processes
      ensures State() == ProcessMsg3(old(State()), pid, frame, subframe)
    {
      msg3Flag := false;
      if msg3Active && msg3At.subframe == subframe && msg3At.frame == frame {
        msg3Active, msg3Flag := false, true;
        processes[pid] := processes[pid].(scheduled := true);
      }
    }

    method ReceiveSubframe(d: Duplex, frame: nat, subframe: nat, ok: bool, keepsMsg3: bool)
      requires Valid(State()) && HarqPid(d, frame, subframe) < 8
      modifies this, processes, errors
      ensures State() == Receive(params, d, old(State()), frame, subframe, ok, keepsMsg3)
    {
      var pid := HarqPid(d, frame, subframe);
      if params.macEnabled {
        if mode == RaResponse {
          PrepareMsg3(pid, frame, subframe);
        }
      }
      if rnti > 0 && processes[pid].scheduled {
        if !ok {
          HandleError(d, pid, frame, subframe);
        } else {
          HandleBlock(pid, keepsMsg3);
        }
      }
    }

    method CheckUlFailure()
      requires Valid(State())
      modifies this`consecutiveErrors, this`trace
      ensures State() == CheckFailure(params, old(State()))
    {
      if consecutiveErrors == params.threshold {
        consecutiveErrors := 0;
        trace := trace + [UlFailure];
      }
    }

    method GeneratePhich(pid: nat)
      requires Valid(State()) && pid < 8
      modifies processes
      ensures State() == Phich(old(State()), pid)
    {
      if rnti > 0 {
        if processes[pid].phichActive {
          if !processes[pid].phichAck {
            processes[pid] := processes[pid].(scheduled := true);
          } else {
            processes[pid] := processes[pid].(scheduled := false, round := 0);
          }
          processes[pid] := processes[pid].(phichActive := false);
        }
      }
    }

    method StartRandomAccess(d: Duplex, newRnti: nat, frame: nat, subframe: nat)
      requires Valid(State()) && Msg3HarqPid(d, frame, subframe) < 8
      modifies this`rnti, this`mode, this`msg3Active, this`msg3At, processes
      ensures State() == StartMsg3(d, old(State()), newRnti, frame, subframe)
    {
      rnti, mode := newRnti, RaResponse;
      var pid := Msg3HarqPid(d, frame, subframe);
      if processes[pid].round != 0 {
        processes[pid] := processes[pid].(round := processes[pid].round + 1);
      }
      msg3Active := true;
      var at := GetMsg3Alloc(d, subframe, frame);
      if at.Some? {
        msg3At := at.value;
      }
      forall i | 0 <= i < 8 {
        processes[i] := processes[i].(phichActive := false);
      }
      ghost var t := StartMsg3(d, old(State()), newRnti, frame, subframe);
      assert processes[..] == t.processes;
    }

    method HandleError(d: Duplex, pid: nat, frame: nat, subframe: nat)
      requires Valid(State()) && pid < 8
      modifies this, processes, errors
      ensures State() == Failed(params, d, old(State()), pid, frame, subframe)
    {
      processes[pid] := UlProcess(processes[pid].round + 1, false, true, false);
      if msg3Flag {
        if processes[pid].round == params.maxMsg3 {
          mode := Prach;
          if params.macEnabled {
            trace := trace + [RaCancelled];
          }
          RemoveUser();
          msg3Active := false;
        } else {
          msg3Active := true;
          msg3At := GetMsg3AllocRet(d, subframe, frame, msg3At);
        }
      } else if processes[pid].round == params.mLimit {
        processes[pid] := UlProcess(0, false, false, false);
        errors[pid] := errors[pid] + 1;
        consecutiveErrors := consecutiveErrors + 1;
        trace := trace + [Exhausted(pid)];
      }
    }

    method HandleBlock(pid: nat, keepsMsg3: bool)
      requires Valid(State()) && pid < 8
      modifies this, processes, errors
      ensures State() == Decoded(params, old(State()), pid, keepsMsg3)
    {
      processes[pid] := UlProcess(0, false, true, true);
      consecutiveErrors := 0;
      trace := trace + [Delivered(pid)];
      if msg3Flag {
        if params.macEnabled {
          msg3Flag := keepsMsg3;
          if !msg3Flag {
            mode := Prach;
            trace := trace + [RaCancelled];
            RemoveUser();
            msg3Active := false;
          }
        }
        mode := Pusch;
        msg3Flag := false;
        forall k | 0 <= k < 8 {
          errors[k] := 0;
        }
        consecutiveErrors := 0;
        assert errors[..] == seq(8, _ => 0);
      }
    }
  }

  /* ---------- Msg3 in FDD ---------- */

  /** One subframe of the base station: receive subframe t, then prepare the transmission of t + 4. */
  datatype Tick = Tick(ok: bool, keepsMsg3: bool)

  function FddTick(p: Params, s: Ulsch, t: nat, k: Tick): (r: Ulsch)
    requires Valid(s)
    ensures Valid(r)
  {
    FddPidIsTimeModEight(t);
    Phich(CheckFailure(p, FddReceive(p, s, t, k)), t % 8)
  }

  function FddReceive(p: Params, s: Ulsch, t: nat, k: Tick): (r: Ulsch)
    requires Valid(s)
    ensures Valid(r)
  {
    FddPidIsTimeModEight(t);
    Receive(p, Fdd, s, FrameOf(t), SubframeOf(t), k.ok, k.keepsMsg3)
  }

  /** The state after the first n ticks of a run that starts at time t. */
  function FddRun(p: Params, s: Ulsch, t: nat, ticks: seq<Tick>, n: nat): (r: Ulsch)
    requires Valid(s) && n <= |ticks|
    ensures Valid(r)
  {
    if n == 0 then s else FddTick(p, FddRun(p, s, t, ticks, n - 1), t + n - 1, ticks[n - 1])
  }

  /** Random access is under way: the next attempt, after `round` failed ones, is due at time m, and nothing else is scheduled. */
  predicate Awaiting(s: Ulsch, t: nat, m: nat, round: nat)
  {
    && Valid(s) && s.rnti > 0 && s.mode == RaResponse
    && t <= m <= t + 9
    && s.msg3Active && s.msg3At == Slot(FrameOf(m), SubframeOf(m))
    && s.consecutiveErrors == 0
    && forall k :: 0 <= k < 8 ==>
         && !s.processes[k].phichActive
         && s.processes[k].round == (if k == m % 8 then round else 0)
         && (s.processes[k].scheduled ==> k == m % 8 && m - t < 8)
  }

  lemma TimesDiffer(t: nat, m: nat)
    requires t < m <= t + 9
    ensures Slot(FrameOf(t), SubframeOf(t)) != Slot(FrameOf(m), SubframeOf(m))
    ensures m - t < 8 ==> t % 8 != m % 8
  {
    assert SubframeOf(t) != SubframeOf(m);
    if t % 8 == m % 8 {
      assert m - t == 8 * (m / 8 - t / 8);
    }
  }

  lemma WaitOneTick(p: Params, s: Ulsch, t: nat, m: nat, round: nat, k: Tick)
    requires p.macEnabled && p.threshold >= 1 && Awaiting(s, t, m, round) && t < m
    ensures Awaiting(FddTick(p, s, t, k), t + 1, m, round)
    ensures FddTick(p, s, t, k).trace == s.trace
  {
    FddPidIsTimeModEight(t);
    TimesDiffer(t, m);
    assert FddReceive(p, s, t, k) == s.(msg3Flag := false);
  }

  lemma {:induction false} WaitUntilDue(p: Params, s: Ulsch, t: nat, m: nat, round: nat, ticks: seq<Tick>, n: nat)
    requires Valid(s) && p.macEnabled && p.threshold >= 1 && t + n <= m <= t + |ticks|
    requires Awaiting(FddRun(p, s, t, ticks, n), t + n, m, round)
    ensures Awaiting(FddRun(p, s, t, ticks, m - t), m, m, round)
    ensures FddRun(p, s, t, ticks, m - t).trace == FddRun(p, s, t, ticks, n).trace
    decreases m - t - n
  {
    hide FddTick, Awaiting;
    if t + n < m {
      WaitOneTick(p, FddRun(p, s, t, ticks, n), t + n, m, round, ticks[n]);
      WaitUntilDue(p, s, t, m, round, ticks, n + 1);
    }
  }

  lemma {:induction false} FailedAttempt(p: Params, s: Ulsch, m: nat, round: nat, k: Tick)
    requires p.macEnabled && p.threshold >= 1 && Awaiting(s, m, m, round) && !k.ok
    ensures round + 1 < p.maxMsg3 ==> Awaiting(FddTick(p, s, m, k), m + 1, m + 8, round + 1) && FddTick(p, s, m, k).trace == s.trace
    ensures round + 1 == p.maxMsg3 ==>
              var r := FddReceive(p, s, m, k);
              r.rnti == 0 && !r.msg3Active && r.trace == s.trace + [RaCancelled, Removed]
  {
    var pid := m % 8;
    FddPidIsTimeModEight(m);
    RetransmissionKeepsProcess(Fdd, m);
    assert (m + 8) % 8 == pid;
    var u := ProcessMsg3(s, pid, FrameOf(m), SubframeOf(m));
    assert FddReceive(p, s, m, k) == Failed(p, Fdd, u, pid, FrameOf(m), SubframeOf(m));
    assert s.trace + [RaCancelled] + [Removed] == s.trace + [RaCancelled, Removed];
    if round + 1 < p.maxMsg3 {
      var r := FddTick(p, s, m, k);
      assert r.msg3At == Slot(FrameOf(m + 8), SubframeOf(m + 8));
      assert forall j :: 0 <= j < 8 && j != pid ==> r.processes[j] == s.processes[j];
      assert r.processes[pid] == UlProcess(round + 1, true, false, false);
    }
  }

  lemma GoodAttempt(p: Params, s: Ulsch, m: nat, round: nat, k: Tick)
    requires p.macEnabled && Awaiting(s, m, m, round) && k.ok
    ensures var r := FddReceive(p, s, m, k);
            && r.mode == Pusch && !r.msg3Active
            && r.trace == s.trace + (if k.keepsMsg3 then [Delivered(m % 8)] else [Delivered(m % 8), RaCancelled, Removed])
            && (r.rnti == 0 <==> !k.keepsMsg3)
            && !r.msg3Flag && r.consecutiveErrors == 0 && (forall i :: 0 <= i < 8 ==> r.errors[i] == 0)
            && r.processes[m % 8] == UlProcess(0, false, true, k.keepsMsg3)
  {
    FddPidIsTimeModEight(m);
    assert s.trace + [Delivered(m % 8)] + [RaCancelled] + [Removed] == s.trace + [Delivered(m % 8), RaCancelled, Removed];
  }

  /** Without MAC no Msg3 is prepared, nothing is cancelled, and no decoded block costs the user its slot. */
  lemma WithoutMac(p: Params, d: Duplex, s: Ulsch, frame: nat, subframe: nat, ok: bool, keepsMsg3: bool)
    requires !p.macEnabled && Valid(s) && HarqPid(d, frame, subframe) < 8
    ensures var r := Receive(p, d, s, frame, subframe, ok, keepsMsg3);
            && (r.msg3Flag ==> s.msg3Flag) && (ok ==> r.rnti == s.rnti)
            && (r.trace == s.trace || exists m: Mark :: !m.RaCancelled? && r.trace == s.trace + [m])
  {
  }

  /** In any duplex mode Msg3 is prepared in the one subframe, among the next 1024 frames, for which it was scheduled. */
  lemma PreparedWhenDue(s: Ulsch, pid: nat, t: nat, m: nat)
    requires Valid(s) && pid < 8 && t <= m < t + 10 * FRAMES && s.msg3At == Slot(FrameOf(m), SubframeOf(m))
    ensures var r := ProcessMsg3(s, pid, FrameOf(t), SubframeOf(t));
            && (r.msg3Flag <==> s.msg3Active && t == m)
            && (r.msg3Active <==> s.msg3Active && t != m)
            && (r.processes[pid].scheduled <==> s.processes[pid].scheduled || r.msg3Flag)
  {
    SlotMetOnce(t, m);
    hide FrameOf, SubframeOf;
  }

  /** Nothing is received in a free slot, and a last failure of Msg3 always leaves one with nothing due. */
  lemma FreeSlotReceivesNothing(p: Params, d: Duplex, s: Ulsch, frame: nat, subframe: nat, ok: bool, keepsMsg3: bool)
    requires Valid(s) && HarqPid(d, frame, subframe) < 8
    ensures s.rnti == 0 && s.mode != RaResponse ==> Receive(p, d, s, frame, subframe, ok, keepsMsg3) == s
    ensures s.msg3Flag && s.processes[HarqPid(d, frame, subframe)].round + 1 == p.maxMsg3 ==>
              var r := Failed(p, d, s, HarqPid(d, frame, subframe), frame, subframe);
              r.rnti == 0 && !r.msg3Active
  {
  }

  /** The attempt at tick n of the run ends the procedure; `round` attempts failed before it. */
  ghost predicate EndsAt(p: Params, s: Ulsch, t: nat, ticks: seq<Tick>, n: nat, round: nat)
    requires Valid(s)
  {
    && n < |ticks| && round < p.maxMsg3
    && var before := FddRun(p, s, t, ticks, n);
       var after := FddReceive(p, before, t + n, ticks[n]);
       && before.trace == s.trace && !after.msg3Active
       && if ticks[n].ok then
            && after.mode == Pusch && (after.rnti == 0 <==> !ticks[n].keepsMsg3)
            && after.trace == s.trace + [Delivered((t + n) % 8)] + (if ticks[n].keepsMsg3 then [] else [RaCancelled, Removed])
          else
            && round + 1 == p.maxMsg3 && after.rnti == 0
            && after.trace == s.trace + [RaCancelled, Removed]
  }

  /** Random access ends: attempts are eight subframes apart on one process, at most maxMsg3 of them are made, all before
      the last one failed, and the last one either delivers the message or frees the slot. */
  lemma {:induction false} Msg3Ends(p: Params, s: Ulsch, t: nat, ticks: seq<Tick>, n: nat, m: nat, round: nat) returns (j: nat)
    requires Valid(s) && p.macEnabled && p.threshold >= 1 && round < p.maxMsg3
    requires t + n <= m && m - t + 8 * (p.maxMsg3 - 1 - round) < |ticks|
    requires Awaiting(FddRun(p, s, t, ticks, n), t + n, m, round) && FddRun(p, s, t, ticks, n).trace == s.trace
    ensures round + j < p.maxMsg3 && EndsAt(p, s, t, ticks, m + 8 * j - t, round + j)
    ensures forall i :: 0 <= i < j ==> !ticks[m + 8 * i - t].ok
    decreases p.maxMsg3 - round
  {
    hide FddTick, FddReceive, Awaiting;
    WaitUntilDue(p, s, t, m, round, ticks, n);
    var e := m - t;
    var before := FddRun(p, s, t, ticks, e);
    if ticks[e].ok {
      GoodAttempt(p, before, m, round, ticks[e]);
      j := 0;
    } else {
      FailedAttempt(p, before, m, round, ticks[e]);
      j := 0;
      if round + 1 < p.maxMsg3 {
        var rest := Msg3Ends(p, s, t, ticks, e + 1, m + 8, round + 1);
        j := rest + 1;
        forall i | 0 <= i < j
          ensures !ticks[m + 8 * i - t].ok
        {
          if i > 0 {
            assert !ticks[(m + 8) + 8 * (i - 1) - t].ok;
          }
        }
      }
    }
  }

  /* ---------- the slot before and after ---------- */

  /** No user, nothing under way; only PHICH requests may be left over. */
  predicate Vacant(s: Ulsch)
  {
    && Valid(s) && s.rnti == 0 && !s.msg3Active && s.consecutiveErrors == 0
    && forall k :: 0 <= k < 8 ==> s.processes[k].round == 0 && !s.processes[k].scheduled
  }

  /** Giving up leaves the slot vacant except for the PHICH request of the last attempt, */
  lemma GivingUpVacates(p: Params, s: Ulsch, m: nat, k: Tick)
    requires p.macEnabled && 1 <= p.maxMsg3 && Awaiting(s, m, m, p.maxMsg3 - 1) && !k.ok
    ensures var r := FddReceive(p, s, m, k);
            && Vacant(r) && r.mode == NotSynched
            && forall i :: 0 <= i < 8 ==> r.errors[i] == 0 && (r.processes[i].phichActive <==> i == m % 8)
  {
    FddPidIsTimeModEight(m);
    var u := ProcessMsg3(s, m % 8, FrameOf(m), SubframeOf(m));
    assert FddReceive(p, s, m, k) == Failed(p, Fdd, u, m % 8, FrameOf(m), SubframeOf(m));
  }

  /** which no later subframe clears while the slot is vacant, */
  lemma VacantStays(p: Params, s: Ulsch, t: nat, k: Tick)
    requires p.threshold >= 1 && Vacant(s)
    ensures var r := FddTick(p, s, t, k); Vacant(r) && r.processes == s.processes && r.trace == s.trace
  {
    FddPidIsTimeModEight(t);
  }

  /** but which the next random access response clears: sent at t + 4, it starts a fresh procedure due at t + 10. */
  lemma {:induction false} ResponseStartsAfresh(s: Ulsch, t: nat, rnti: nat)
    requires Vacant(s) && rnti > 0
    ensures Awaiting(StartMsg3(Fdd, s, rnti, FrameOf(t + 4), SubframeOf(t + 4)), t + 1, t + 10, 0)
  {
    ResponseStarts(s, t, rnti);
  }

  /** In general the response counts an attempt more if the process was left in a later round. */
  lemma {:induction false} ResponseStarts(s: Ulsch, t: nat, rnti: nat)
    requires Valid(s) && rnti > 0 && s.consecutiveErrors == 0
    requires forall k :: 0 <= k < 8 ==> !s.processes[k].scheduled && (k != (t + 10) % 8 ==> s.processes[k].round == 0)
    ensures var round := s.processes[(t + 10) % 8].round;
            Awaiting(StartMsg3(Fdd, s, rnti, FrameOf(t + 4), SubframeOf(t + 4)), t + 1, t + 10,
                     if round == 0 then 0 else round + 1)
  {
    hide FrameOf, SubframeOf, HarqPid, GetMsg3Alloc, Msg3HarqPid;
    ResponseAt(t);
  }

  /** A response sent at t + 4 is for time t + 10. */
  lemma {:induction false} ResponseAt(t: nat)
    ensures GetMsg3Alloc(Fdd, SubframeOf(t + 4), FrameOf(t + 4)) == Some(Slot(FrameOf(t + 10), SubframeOf(t + 10)))
    ensures Msg3HarqPid(Fdd, FrameOf(t + 4), SubframeOf(t + 4)) == (t + 10) % 8
  {
    TimeShift(t + 4, 6);
    var sf := SubframeOf(t + 4);
    assert (sf + 6) / 10 == if sf + 6 > 9 then 1 else 0;
    FrameBelow(t + 4);
    Msg3ProcessAgreesExactly(Fdd, t + 4);
    FddPidIsTimeModEight(t + 10);
    hide HarqPid, Msg3HarqPid;
  }

  /** From the response on, in any vacant slot and whatever is decoded: one of the subframes 10, 18, 26, ... after the one in
      which the response was prepared ends the random access, all attempts before it failed, and it is attempt maxMsg3 at
      the latest. */
  lemma {:induction false} RandomAccessEnds(p: Params, s: Ulsch, t: nat, rnti: nat, ticks: seq<Tick>) returns (j: nat)
    requires p.macEnabled && p.threshold >= 1 && p.maxMsg3 >= 1 && Vacant(s) && rnti > 0 && |ticks| > 1 + 8 * p.maxMsg3
    ensures j < p.maxMsg3 && forall i :: 0 <= i < j ==> !ticks[9 + 8 * i].ok
    ensures EndsAt(p, StartMsg3(Fdd, s, rnti, FrameOf(t + 4), SubframeOf(t + 4)), t + 1, ticks, 9 + 8 * j, j)
  {
    ResponseStartsAfresh(s, t, rnti);
    var start := StartMsg3(Fdd, s, rnti, FrameOf(t + 4), SubframeOf(t + 4));
    assert FddRun(p, start, t + 1, ticks, 0) == start;
    hide StartMsg3, EndsAt, Awaiting, FddRun, FddTick, FddReceive;
    j := Msg3Ends(p, start, t + 1, ticks, 0, t + 10, 0);
    forall i | 0 <= i < j
      ensures !ticks[9 + 8 * i].ok
    {
      assert !ticks[(t + 10) + 8 * i - (t + 1)].ok;
    }
  }

  /* ---------- a block on PUSCH ---------- */

  /** A connected user outside random access. */
  predicate Plain(p: Params, s: Ulsch)
  {
    Valid(s) && s.rnti > 0 && !s.msg3Flag && (p.macEnabled ==> s.mode != RaResponse)
  }

  /** One reception of a scheduled block, in any duplex mode: a decoded one is to be answered with an ACK and clears the counter;
      a failed one goes to its next round, to be answered with a NAK, or has used up its rounds and is dropped and counted. */
  lemma ReceptionSettles(p: Params, d: Duplex, s: Ulsch, frame: nat, subframe: nat, ok: bool, keepsMsg3: bool)
    requires Plain(p, s) && HarqPid(d, frame, subframe) < 8
    ensures var pid, r := HarqPid(d, frame, subframe), Receive(p, d, s, frame, subframe, ok, keepsMsg3);
            var x, y := s.processes[pid], r.processes[pid];
            && Plain(p, r) && (forall k :: 0 <= k < 8 && k != pid ==> r.processes[k] == s.processes[k])
            && (!x.scheduled ==> r == s)
            && (x.scheduled && ok ==>
                  && y == UlProcess(0, false, true, true)
                  && r.trace == s.trace + [Delivered(pid)] && r.consecutiveErrors == 0 && r.errors == s.errors)
            && (x.scheduled && !ok && x.round + 1 != p.mLimit ==>
                  && y == UlProcess(x.round + 1, false, true, false)
                  && r.trace == s.trace && r.consecutiveErrors == s.consecutiveErrors && r.errors == s.errors)
            && (x.scheduled && !ok && x.round + 1 == p.mLimit ==>
                  && y == UlProcess(0, false, false, false)
                  && r.trace == s.trace + [Exhausted(pid)] && r.consecutiveErrors == s.consecutiveErrors + 1
                  && r.errors == s.errors[pid := s.errors[pid] + 1])
  {
  }

  /** What was said about the blocks of one process. */
  function MarksOf(trace: seq<Mark>, pid: nat): seq<Mark>
  {
    if trace == [] then []
    else
      var last := trace[|trace| - 1];
      MarksOf(trace[..|trace| - 1], pid) + if last == Delivered(pid) || last == Exhausted(pid) then [last] else []
  }

  lemma MarksSnoc(trace: seq<Mark>, x: Mark, pid: nat)
    ensures MarksOf(trace + [x], pid) == MarksOf(trace, pid) + if x == Delivered(pid) || x == Exhausted(pid) then [x] else []
  {
    assert (trace + [x])[..|trace|] == trace;
  }

  lemma CheckIsSilent(p: Params, s: Ulsch, pid: nat)
    requires Plain(p, s)
    ensures var r := CheckFailure(p, s);
            Plain(p, r) && r.processes == s.processes && MarksOf(r.trace, pid) == MarksOf(s.trace, pid)
  {
    MarksSnoc(s.trace, UlFailure, pid);
  }

  lemma PhichAnswers(p: Params, s: Ulsch, pid: nat)
    requires Plain(p, s) && pid < 8
    ensures var r, x := Phich(s, pid), s.processes[pid];
            && Plain(p, r) && r.trace == s.trace
            && (forall k :: 0 <= k < 8 && k != pid ==> r.processes[k] == s.processes[k])
            && (!x.phichActive ==> r.processes[pid] == x)
            && (x.phichActive && x.phichAck ==> r.processes[pid] == UlProcess(0, false, false, true))
            && (x.phichActive && !x.phichAck ==> r.processes[pid] == UlProcess(x.round, true, false, false))
  {
  }

  /** What the reception at time t says. */
  function Said(p: Params, x: UlProcess, pid: nat, ok: bool): seq<Mark>
  {
    if !x.scheduled then [] else if ok then [Delivered(pid)] else if x.round + 1 == p.mLimit then [Exhausted(pid)] else []
  }

  /** The block after its subframe: a refused one is scheduled again by the NAK, an acknowledged or dropped one is not. */
  function Answered(p: Params, x: UlProcess, ok: bool): UlProcess
  {
    if !x.scheduled then x
    else if ok then UlProcess(0, false, false, true)
    else if x.round + 1 == p.mLimit then UlProcess(0, false, false, false)
    else UlProcess(x.round + 1, true, false, false)
  }

  lemma PlainTick(p: Params, s: Ulsch, t: nat, k: Tick, pid: nat)
    requires Plain(p, s) && pid < 8 && (t % 8 == pid && !s.processes[pid].scheduled ==> !s.processes[pid].phichActive)
    ensures var x, r := s.processes[pid], FddTick(p, s, t, k);
            && Plain(p, r)
            && r.processes[pid] == (if t % 8 == pid then Answered(p, x, k.ok) else x)
            && MarksOf(r.trace, pid) == MarksOf(s.trace, pid) + if t % 8 == pid then Said(p, x, pid, k.ok) else []
  {
    hide Receive, CheckFailure, Phich, MarksOf, Plain, FrameOf, SubframeOf, HarqPid;
    FddPidIsTimeModEight(t);
    PlainIsValid(p, s);
    ReceptionSettles(p, Fdd, s, FrameOf(t), SubframeOf(t), k.ok, k.keepsMsg3);
    var u := FddReceive(p, s, t, k);
    MarksSnoc(s.trace, Delivered(t % 8), pid);
    MarksSnoc(s.trace, Exhausted(t % 8), pid);
    CheckIsSilent(p, u, pid);
    PhichAnswers(p, CheckFailure(p, u), t % 8);
  }

  lemma PlainIsValid(p: Params, s: Ulsch)
    requires Plain(p, s)
    ensures Valid(s)
  {
  }

  /** Process pid is scheduled in this round, and so far nothing has been said of it. */
  predicate Pending(p: Params, s: Ulsch, r: Ulsch, pid: nat, round: nat)
  {
    && Plain(p, r) && pid < 8 && r.processes[pid].scheduled && r.processes[pid].round == round
    && MarksOf(r.trace, pid) == MarksOf(s.trace, pid)
  }

  /** Its block has been delivered or has used up its rounds, once, and it is not scheduled again. */
  predicate Over(p: Params, s: Ulsch, r: Ulsch, pid: nat, ok: bool)
  {
    && Plain(p, r) && pid < 8 && r.processes[pid] == UlProcess(0, false, false, ok)
    && MarksOf(r.trace, pid) == MarksOf(s.trace, pid) + [if ok then Delivered(pid) else Exhausted(pid)]
  }

  lemma {:induction false} PendingUntilDue(p: Params, s: Ulsch, t: nat, ticks: seq<Tick>, from: nat, n: nat, pid: nat, round: nat)
    requires Valid(s) && from <= n <= from + 7 && n <= |ticks| && (t + from) % 8 == (pid + 1) % 8
    requires Pending(p, s, FddRun(p, s, t, ticks, from), pid, round)
    ensures Pending(p, s, FddRun(p, s, t, ticks, n), pid, round)
    decreases n
  {
    hide FddTick, Plain, MarksOf, Answered, Said;
    if n > from {
      PendingUntilDue(p, s, t, ticks, from, n - 1, pid, round);
      NotYet(t + from, n - 1 - from, pid);
      PlainTick(p, FddRun(p, s, t, ticks, n - 1), t + n - 1, ticks[n - 1], pid);
    }
  }

  lemma NotYet(a: nat, e: nat, pid: nat)
    requires a % 8 == (pid + 1) % 8 && e < 7 && pid < 8
    ensures (a + e) % 8 != pid
  {
    var x, q := a % 8, a / 8;
    assert a + e == 8 * q + (x + e);
    assert (a + e) % 8 == if x + e < 8 then x + e else x + e - 8;
  }

  lemma {:induction false} OverStays(p: Params, s: Ulsch, t: nat, ticks: seq<Tick>, from: nat, n: nat, pid: nat, ok: bool)
    requires Valid(s) && from <= n <= |ticks| && Over(p, s, FddRun(p, s, t, ticks, from), pid, ok)
    ensures Over(p, s, FddRun(p, s, t, ticks, n), pid, ok)
    decreases n
  {
    hide FddTick, Plain, MarksOf;
    if n > from {
      OverStays(p, s, t, ticks, from, n - 1, pid, ok);
      PlainTick(p, FddRun(p, s, t, ticks, n - 1), t + n - 1, ticks[n - 1], pid);
    }
  }

  /** Attempt i of the block fails but is not its last: the counters stay, a NAK is to be sent, and the next attempt is
      scheduled. */
  ghost predicate Retries(p: Params, s: Ulsch, t: nat, ticks: seq<Tick>, i: nat)
    requires Valid(s) && 8 * i < |ticks|
  {
    var before := FddRun(p, s, t, ticks, 8 * i);
    var after := FddReceive(p, before, t + 8 * i, ticks[8 * i]);
    && !ticks[8 * i].ok && Pending(p, s, before, t % 8, i)
    && after.processes[t % 8] == UlProcess(i + 1, false, true, false)
    && after.consecutiveErrors == before.consecutiveErrors && after.errors == before.errors && after.trace == before.trace
  }

  /** Attempt i settles it: delivered, with an ACK to be sent, or dropped and counted. */
  ghost predicate Settles(p: Params, s: Ulsch, t: nat, ticks: seq<Tick>, i: nat)
    requires Valid(s) && 8 * i < |ticks|
  {
    var pid, ok := t % 8, ticks[8 * i].ok;
    var before := FddRun(p, s, t, ticks, 8 * i);
    var after := FddReceive(p, before, t + 8 * i, ticks[8 * i]);
    && Pending(p, s, before, pid, i)
    && after.processes[pid] == UlProcess(0, false, ok, ok)
    && after.trace == before.trace + [if ok then Delivered(pid) else Exhausted(pid)]
    && after.consecutiveErrors == (if ok then 0 else before.consecutiveErrors + 1)
    && after.errors == (if ok then before.errors else before.errors[pid := before.errors[pid] + 1])
    && forall n :: 8 * i < n <= |ticks| ==> Over(p, s, FddRun(p, s, t, ticks, n), pid, ok)
  }

  lemma EightLater(t: nat, i: nat)
    ensures (t + 8 * i) % 8 == t % 8
  {
    assert t + 8 * i == 8 * (t / 8 + i) + t % 8;
  }

  lemma {:induction false} PuschAttempt(p: Params, s: Ulsch, t: nat, ticks: seq<Tick>, i: nat)
    requires Valid(s) && 8 * i < |ticks| && i < p.mLimit && Pending(p, s, FddRun(p, s, t, ticks, 8 * i), t % 8, i)
    ensures !ticks[8 * i].ok && i + 1 < p.mLimit ==>
              && Retries(p, s, t, ticks, i)
              && (8 * i + 8 <= |ticks| ==> Pending(p, s, FddRun(p, s, t, ticks, 8 * i + 8), t % 8, i + 1))
    ensures ticks[8 * i].ok || i + 1 == p.mLimit ==> Settles(p, s, t, ticks, i)
  {
    hide FddTick, Receive, Plain, MarksOf, FddRun, HarqPid, FrameOf, SubframeOf;
    var now, k, pid := t + 8 * i, ticks[8 * i], t % 8;
    var before := FddRun(p, s, t, ticks, 8 * i);
    EightLater(t, i);
    FddPidIsTimeModEight(now);
    PlainIsValid(p, before);
    ReceptionSettles(p, Fdd, before, FrameOf(now), SubframeOf(now), k.ok, k.keepsMsg3);
    PlainTick(p, before, now, k, pid);
    RunSnoc(p, s, t, ticks, 8 * i);
    if k.ok || i + 1 == p.mLimit {
      forall n | 8 * i < n <= |ticks|
        ensures Over(p, s, FddRun(p, s, t, ticks, n), pid, k.ok)
      {
        OverStays(p, s, t, ticks, 8 * i + 1, n, pid, k.ok);
      }
    } else if 8 * i + 8 <= |ticks| {
      Next(now);
      PendingUntilDue(p, s, t, ticks, 8 * i + 1, 8 * i + 8, pid, i + 1);
    }
  }

  lemma Next(a: nat)
    ensures (a + 1) % 8 == (a % 8 + 1) % 8
  {
  }

  lemma RunSnoc(p: Params, s: Ulsch, t: nat, ticks: seq<Tick>, n: nat)
    requires Valid(s) && n < |ticks|
    ensures FddRun(p, s, t, ticks, n + 1) == FddTick(p, FddRun(p, s, t, ticks, n), t + n, ticks[n])
  {
  }

  lemma {:induction false} PuschBlockEndsFrom(p: Params, s: Ulsch, t: nat, ticks: seq<Tick>, i: nat) returns (j: nat)
    requires Valid(s) && i < p.mLimit && |ticks| > 8 * (p.mLimit - 1)
    requires Pending(p, s, FddRun(p, s, t, ticks, 8 * i), t % 8, i)
    ensures i <= j < p.mLimit && (ticks[8 * j].ok || j == p.mLimit - 1)
    ensures (forall e :: i <= e < j ==> Retries(p, s, t, ticks, e)) && Settles(p, s, t, ticks, j)
    decreases p.mLimit - i
  {
    hide Pending, Retries, Settles, FddRun;
    PuschAttempt(p, s, t, ticks, i);
    if ticks[8 * i].ok || i + 1 == p.mLimit {
      j := i;
    } else {
      j := PuschBlockEndsFrom(p, s, t, ticks, i + 1);
    }
  }

  /** In FDD, from a scheduled block in round 0 and whatever the other processes do: attempts are eight subframes apart, every
      attempt before attempt j failed and was retried after a NAK, with all counters unchanged; attempt j is decoded, or it is
      attempt number mLimit and exhausts the block. Either is said once, and the process is not scheduled again. */
  lemma {:induction false} PuschBlockEnds(p: Params, s: Ulsch, t: nat, ticks: seq<Tick>) returns (j: nat)
    requires Plain(p, s) && p.mLimit >= 1 && s.processes[t % 8].scheduled && s.processes[t % 8].round == 0
    requires |ticks| > 8 * (p.mLimit - 1)
    ensures j < p.mLimit && (ticks[8 * j].ok || j == p.mLimit - 1)
    ensures (forall e :: 0 <= e < j ==> Retries(p, s, t, ticks, e)) && Settles(p, s, t, ticks, j)
  {
    assert Pending(p, s, FddRun(p, s, t, ticks, 0), t % 8, 0);
    j := PuschBlockEndsFrom(p, s, t, ticks, 0);
    hide Retries, Settles;
  }

  /* ---------- uplink failure ---------- */

  /** What one subframe brings for the failure counter. `rest` is the user's state as other parts of the system (grants,
      PHICH, random access) leave it; `removed` is whether MAC removes the user first. */
  datatype Subframe = Subframe(rest: Ulsch, removed: bool, ok: bool, keepsMsg3: bool, cbaOk: bool)

  function Before(s: Ulsch, k: Subframe): (r: Ulsch)
    requires Valid(k.rest)
    ensures Valid(r)
  {
    var u := k.rest.(consecutiveErrors := s.consecutiveErrors, trace := s.trace);
    if k.removed then Remove(u) else u
  }

  function AnyTick(p: Params, d: Duplex, s: Ulsch, t: nat, k: Subframe): (r: Ulsch)
    requires Covered(d) && Valid(k.rest)
    ensures Valid(r)
  {
    var before := Before(s, k);
    var received := if UplinkAt(d, t) then AnyReceive(p, d, before, t, k) else before;
    if Checks(d, t) then CheckFailure(p, received) else received
  }

  function AnyReceive(p: Params, d: Duplex, s: Ulsch, t: nat, k: Subframe): (r: Ulsch)
    requires Covered(d) && Valid(s) && UplinkAt(d, t)
    ensures Valid(r)
  {
    UplinkHasProcess(d, t);
    var u := Receive(p, d, s, FrameOf(t), SubframeOf(t), k.ok, k.keepsMsg3);
    if k.cbaOk then u.(consecutiveErrors := 0, trace := u.trace + [CbaDelivered]) else u
  }

  lemma UplinkHasProcess(d: Duplex, t: nat)
    requires Covered(d) && UplinkAt(d, t)
    ensures HarqPid(d, FrameOf(t), SubframeOf(t)) < 8
  {
  }

  function AnyRun(p: Params, d: Duplex, s: Ulsch, t: nat, run: seq<Subframe>): (r: Ulsch)
    requires Covered(d) && Valid(s) && forall k :: k in run ==> Valid(k.rest)
    ensures Valid(r)
  {
    if run == [] then s
    else AnyTick(p, d, AnyRun(p, d, s, t, run[..|run| - 1]), t + |run| - 1, run[|run| - 1])
  }

  /** Blocks exhausted since the last success, removal or indication. */
  function SinceReset(trace: seq<Mark>): nat
  {
    if trace == [] then 0
    else
      var init := trace[..|trace| - 1];
      match trace[|trace| - 1]
      case Exhausted(_) => SinceReset(init) + 1
      case RaCancelled => SinceReset(init)
      case _ => 0
  }

  /** The count never passes the threshold, and failure is indicated only at the threshold. */
  predicate Punctual(threshold: nat, trace: seq<Mark>)
  {
    forall i :: 0 <= i < |trace| ==>
      SinceReset(trace[..i]) <= threshold && (trace[i] == UlFailure ==> SinceReset(trace[..i]) == threshold)
  }

  lemma Append(threshold: nat, trace: seq<Mark>, x: Mark)
    requires Punctual(threshold, trace) && SinceReset(trace) <= threshold
    requires x == UlFailure ==> SinceReset(trace) == threshold
    ensures Punctual(threshold, trace + [x])
    ensures SinceReset(trace + [x])
            == if x.Exhausted? then SinceReset(trace) + 1 else if x.RaCancelled? then SinceReset(trace) else 0
  {
    var longer := trace + [x];
    assert longer[..|trace|] == trace;
    forall i | 0 <= i < |longer|
      ensures SinceReset(longer[..i]) <= threshold && (longer[i] == UlFailure ==> SinceReset(longer[..i]) == threshold)
    {
      if i < |trace| {
        assert longer[..i] == trace[..i];
      }
    }
  }

  /** The three things a received subframe can add: nothing, one exhausted block, or marks that end with a reset. */
  ghost predicate Adds(s: Ulsch, r: Ulsch)
  {
    || (r.trace == s.trace && r.consecutiveErrors == s.consecutiveErrors)
    || (exists pid :: r.trace == s.trace + [Exhausted(pid)] && r.consecutiveErrors == s.consecutiveErrors + 1)
    || (exists ms :: Resets(ms) && r.trace == s.trace + ms && r.consecutiveErrors == 0)
  }

  predicate Resets(ms: seq<Mark>)
  {
    && ms != [] && (ms[|ms| - 1] == Removed || ms[|ms| - 1].Delivered?)
    && forall m :: m in ms ==> !m.Exhausted? && !m.UlFailure?
  }

  lemma FailedAdds(p: Params, d: Duplex, s: Ulsch, pid: nat, frame: nat, subframe: nat)
    requires Valid(s) && pid < 8
    ensures Adds(s, Failed(p, d, s, pid, frame, subframe))
  {
    assert s.trace + [RaCancelled] + [Removed] == s.trace + [RaCancelled, Removed];
    assert Resets([RaCancelled, Removed]) && Resets([Removed]);
  }

  lemma DecodedAdds(p: Params, s: Ulsch, pid: nat, keepsMsg3: bool)
    requires Valid(s) && pid < 8
    ensures Adds(s, Decoded(p, s, pid, keepsMsg3))
  {
    var good := Delivered(pid);
    assert s.trace + [good] + [RaCancelled] + [Removed] == s.trace + [good, RaCancelled, Removed];
    assert Resets([good, RaCancelled, Removed]) && Resets([good]);
  }

  lemma ReceiveAdds(p: Params, d: Duplex, s: Ulsch, frame: nat, subframe: nat, ok: bool, keepsMsg3: bool)
    requires Valid(s) && HarqPid(d, frame, subframe) < 8
    ensures Adds(s, Receive(p, d, s, frame, subframe, ok, keepsMsg3))
  {
    var pid := HarqPid(d, frame, subframe);
    var u := if p.macEnabled && s.mode == RaResponse then ProcessMsg3(s, pid, frame, subframe) else s;
    FailedAdds(p, d, u, pid, frame, subframe);
    DecodedAdds(p, u, pid, keepsMsg3);
    hide Failed, Decoded;
  }

  /** The counter agrees with the trace and is at most `limit`. */
  predicate Agrees(threshold: nat, errors: nat, trace: seq<Mark>, limit: int)
  {
    errors == SinceReset(trace) <= limit && Punctual(threshold, trace)
  }

  lemma {:induction false} AppendAll(threshold: nat, trace: seq<Mark>, ms: seq<Mark>)
    requires Agrees(threshold, SinceReset(trace), trace, threshold)
    requires forall m :: m in ms ==> !m.Exhausted? && !m.UlFailure?
    ensures Agrees(threshold, SinceReset(trace + ms), trace + ms, threshold)
    ensures Resets(ms) ==> SinceReset(trace + ms) == 0
  {
    if ms == [] {
      assert trace + ms == trace;
    } else {
      var init, last := ms[..|ms| - 1], ms[|ms| - 1];
      assert forall m :: m in init ==> m in ms;
      AppendAll(threshold, trace, init);
      assert last in ms;
      Append(threshold, trace + init, last);
      assert trace + ms == (trace + init) + [last];
    }
    hide Punctual, SinceReset;
  }

  lemma AddsAgrees(threshold: nat, s: Ulsch, r: Ulsch)
    requires Agrees(threshold, s.consecutiveErrors, s.trace, threshold - 1) && Adds(s, r)
    ensures Agrees(threshold, r.consecutiveErrors, r.trace, threshold)
  {
    if pid :| r.trace == s.trace + [Exhausted(pid)] {
      Append(threshold, s.trace, Exhausted(pid));
    }
    if ms :| Resets(ms) && r.trace == s.trace + ms {
      AppendAll(threshold, s.trace, ms);
    }
  }

  lemma AnyReceiveAgrees(p: Params, d: Duplex, s: Ulsch, t: nat, k: Subframe)
    requires Covered(d) && Valid(s) && UplinkAt(d, t) && Agrees(p.threshold, s.consecutiveErrors, s.trace, p.threshold - 1)
    ensures var r := AnyReceive(p, d, s, t, k);
            Agrees(p.threshold, r.consecutiveErrors, r.trace, p.threshold)
  {
    UplinkHasProcess(d, t);
    ReceiveAdds(p, d, s, FrameOf(t), SubframeOf(t), k.ok, k.keepsMsg3);
    var u := Receive(p, d, s, FrameOf(t), SubframeOf(t), k.ok, k.keepsMsg3);
    hide Receive;
    AddsAgrees(p.threshold, s, u);
    Append(p.threshold, u.trace, CbaDelivered);
  }

  /** The counter is the count, and a count at the threshold is still pending only where TDD configuration 1 has two uplink
      subframes in a row, so that the transmit side has not run since. */
  predicate Counted(p: Params, d: Duplex, s: Ulsch, t: nat)
  {
    Agrees(p.threshold, s.consecutiveErrors, s.trace, if CheckSkipped(d, t) then p.threshold else p.threshold - 1)
  }

  predicate Checks(d: Duplex, t: nat)
  {
    d.Fdd? || !UplinkAt(d, t + 4)
  }

  predicate CheckSkipped(d: Duplex, t: nat)
  {
    d == Tdd(1) && SubframeOf(t) in {4, 5, 9, 0}
  }

  lemma SkippedBriefly(d: Duplex, t: nat)
    requires Covered(d)
    ensures CheckSkipped(d, t) ==> !UplinkAt(d, t)
    ensures UplinkAt(d, t) || CheckSkipped(d, t) ==> Checks(d, t) || CheckSkipped(d, t + 1)
    ensures UplinkAt(d, t) && !Checks(d, t) <==> d == Tdd(1) && SubframeOf(t) in {3, 8}
    ensures d == Tdd(1) ==> (Checks(d, t) <==> SubframeOf(t) !in {3, 4, 8, 9})
  {
    TimeShift(t, 1);
    TimeShift(t, 4);
  }

  lemma CheckAgrees(p: Params, s: Ulsch)
    requires Valid(s) && p.threshold >= 1 && Agrees(p.threshold, s.consecutiveErrors, s.trace, p.threshold)
    ensures var r := CheckFailure(p, s);
            Agrees(p.threshold, r.consecutiveErrors, r.trace, p.threshold - 1)
  {
    if s.consecutiveErrors == p.threshold {
      Append(p.threshold, s.trace, UlFailure);
    }
  }

  lemma BeforeAgrees(p: Params, d: Duplex, s: Ulsch, t: nat, k: Subframe)
    requires p.threshold >= 1 && Valid(k.rest) && Counted(p, d, s, t)
    ensures var r := Before(s, k);
            Agrees(p.threshold, r.consecutiveErrors, r.trace, if CheckSkipped(d, t) then p.threshold else p.threshold - 1)
  {
    Append(p.threshold, s.trace, Removed);
  }

  lemma TickCounts(p: Params, d: Duplex, s: Ulsch, t: nat, k: Subframe)
    requires Covered(d) && p.threshold >= 1 && Valid(k.rest) && Counted(p, d, s, t)
    ensures Counted(p, d, AnyTick(p, d, s, t, k), t + 1)
  {
    var before := Before(s, k);
    BeforeAgrees(p, d, s, t, k);
    if UplinkAt(d, t) {
      AnyReceiveAgrees(p, d, before, t, k);
    }
    var received := if UplinkAt(d, t) then AnyReceive(p, d, before, t, k) else before;
    CheckAgrees(p, received);
    SkippedBriefly(d, t);
    hide Before, AnyReceive, CheckFailure, Agrees, Checks, CheckSkipped;
  }

  /** Over every run, in FDD and in TDD configurations 1, 3, 4 and 5, uplink failure is indicated exactly when `threshold`
      blocks in a row used up their rounds: the equality test never misses. */
  lemma {:induction false} FailureExactlyAtThreshold(p: Params, d: Duplex, s: Ulsch, t: nat, run: seq<Subframe>)
    requires Covered(d) && Valid(s) && (forall k :: k in run ==> Valid(k.rest))
    requires p.threshold >= 1 && s.consecutiveErrors == 0 && s.trace == []
    ensures Counted(p, d, AnyRun(p, d, s, t, run), t + |run|)
  {
    if run != [] {
      var init := run[..|run| - 1];
      FailureExactlyAtThreshold(p, d, s, t, init);
      TickCounts(p, d, AnyRun(p, d, s, t, init), t + |run| - 1, run[|run| - 1]);
    }
  }

  /** A state from which every process fails for good when it is received next. */
  function LastChance(p: Params, s: Ulsch): (r: Ulsch)
    requires p.mLimit >= 1
    ensures Valid(r)
  {
    s.(rnti := 1, mode := Pusch, msg3Flag := false, errors := seq(8, _ => 0),
       processes := seq(8, _ => UlProcess(p.mLimit - 1, true, false, false)))
  }

  lemma LastChanceFails(p: Params, d: Duplex, s: Ulsch, frame: nat, subframe: nat, keepsMsg3: bool)
    requires p.mLimit >= 1 && HarqPid(d, frame, subframe) < 8
    ensures var r := Receive(p, d, LastChance(p, s), frame, subframe, false, keepsMsg3);
            && r.consecutiveErrors == s.consecutiveErrors + 1
            && r.trace == s.trace + [Exhausted(HarqPid(d, frame, subframe))]
  {
  }

  /** The command line can set the threshold to 0; then the test misses: a user that starts afresh passes it with its first
      exhausted block, in every duplex mode. */
  lemma ZeroThresholdMisses(p: Params, d: Duplex, s: Ulsch, t: nat)
    requires Covered(d) && p.threshold == 0 && p.mLimit >= 1 && UplinkAt(d, t)
    requires Valid(s) && s.consecutiveErrors == 0 && s.trace == []
    ensures var run := [Subframe(LastChance(p, s), false, false, false, false)];
            AnyRun(p, d, s, t, run).consecutiveErrors == 1 > p.threshold
  {
    hide AnyRun, Receive, LastChance, HarqPid, FrameOf, SubframeOf, Checks;
    UplinkHasProcess(d, t);
    LastChanceFails(p, d, s, FrameOf(t), SubframeOf(t), false);
    var k := Subframe(LastChance(p, s), false, false, false, false);
    LastChanceKeeps(p, s);
    OneTickRun(p, d, s, t, k);
  }

  lemma LastChanceKeeps(p: Params, s: Ulsch)
    requires p.mLimit >= 1
    ensures LastChance(p, s).consecutiveErrors == s.consecutiveErrors && LastChance(p, s).trace == s.trace
    ensures LastChance(p, s).(consecutiveErrors := s.consecutiveErrors, trace := s.trace) == LastChance(p, s)
  {
  }

  lemma OneTickRun(p: Params, d: Duplex, s: Ulsch, t: nat, k: Subframe)
    requires Covered(d) && Valid(s) && Valid(k.rest)
    ensures AnyRun(p, d, s, t, [k]) == AnyTick(p, d, s, t, k)
  {
    assert [k][..0] == [];
    assert AnyRun(p, d, s, t, []) == s;
    hide AnyTick;
  }

  ghost predicate NeverPassed(p: Params, d: Duplex)
    requires Covered(d)
  {
    forall s: Ulsch, t: nat, run: seq<Subframe> | Valid(s) && s.consecutiveErrors == 0 && s.trace == [] && (forall k :: k in run ==> Valid(k.rest)) ::
      AnyRun(p, d, s, t, run).consecutiveErrors <= p.threshold
  }

  /** No run of a user that starts afresh carries the counter past the threshold, exactly if the threshold is at least 1. */
  lemma ThresholdNeverPassedExactly(p: Params, d: Duplex)
    requires Covered(d) && p.mLimit >= 1
    ensures NeverPassed(p, d) <==> p.threshold >= 1
  {
    if p.threshold >= 1 {
      forall s: Ulsch, t: nat, run: seq<Subframe> | Valid(s) && s.consecutiveErrors == 0 && s.trace == [] && (forall k :: k in run ==> Valid(k.rest))
        ensures AnyRun(p, d, s, t, run).consecutiveErrors <= p.threshold
      {
        FailureExactlyAtThreshold(p, d, s, t, run);
      }
    } else {
      var s := Idle();
      assert UplinkAt(d, 2);
      ZeroThresholdMisses(p, d, s, 2);
    }
    hide AnyRun, Punctual, SinceReset, LastChance;
  }

  function Idle(): (s: Ulsch)
    ensures Valid(s)
  {
    Ulsch(0, NotSynched, seq(8, _ => UlProcess(0, false, false, false)), false, false, Slot(0, 0), seq(8, _ => 0), 0, [])
  }

  /* ---------- two threads ---------- */

  /** A thread has finished `rounds` of its subframes, and has received the next one or not. */
  datatype Thread = Thread(rounds: nat, received: bool)

  datatype Threads = Threads(even: Thread, odd: Thread)

  function Advance(th: Thread): Thread
  {
    if th.received then Thread(th.rounds + 1, false) else Thread(th.rounds, true)
  }

  function Moved(x: Threads, odd: bool): Threads
  {
    if odd then Threads(x.even, Advance(x.odd)) else Threads(Advance(x.even), x.odd)
  }

  /** Where the threads are after a schedule: at each step one of them receives its subframe, or runs the failure check for it. */
  function After(schedule: seq<bool>): Threads
  {
    if schedule == [] then Threads(Thread(0, false), Thread(0, false))
    else Moved(After(schedule[..|schedule| - 1]), schedule[|schedule| - 1])
  }

  /** The thread of a step, and its subframe. */
  function Mover(x: Threads, odd: bool): Thread { if odd then x.odd else x.even }

  function MoverTick(x: Threads, odd: bool): nat { RxTxThreads.Tick(Mover(x, odd).rounds, odd) }

  /** A thread starts its next subframe only when the front end wakes it. */
  predicate Allowed(x: Threads, odd: bool)
  {
    Mover(x, odd).received || RxTxThreads.MayStart(x.even.rounds, x.odd.rounds, odd)
  }

  /** The schedules the front end allows. */
  predicate Possible(schedule: seq<bool>)
  {
    schedule == []
    || (var init, odd := schedule[..|schedule| - 1], schedule[|schedule| - 1];
        Possible(init) && Allowed(After(init), odd))
  }

  datatype Kind = Reception | Check | Nothing

  /** What the last step of a schedule does to the counter. */
  function LastKind(d: Duplex, schedule: seq<bool>): Kind
    requires Covered(d) && schedule != []
  {
    var x, odd := After(schedule[..|schedule| - 1]), schedule[|schedule| - 1];
    if !Mover(x, odd).received then if UplinkAt(d, MoverTick(x, odd)) then Reception else Nothing
    else if Checks(d, MoverTick(x, odd)) then Check else Nothing
  }

  /** One step of a thread on the user's state. */
  function ThreadStep(p: Params, d: Duplex, s: Ulsch, x: Threads, odd: bool, k: Subframe): (r: Ulsch)
    requires Covered(d) && Valid(s) && Valid(k.rest)
    ensures Valid(r)
  {
    var n := MoverTick(x, odd);
    if !Mover(x, odd).received then
      if UplinkAt(d, n) then AnyReceive(p, d, Before(s, k), n, k) else Before(s, k)
    else if Checks(d, n) then CheckFailure(p, s)
    else s
  }

  /** A run of both threads; each step comes with what it may find. */
  function ThreadRun(p: Params, d: Duplex, s: Ulsch, schedule: seq<bool>, ks: seq<Subframe>): (r: Ulsch)
    requires Covered(d) && Valid(s) && |schedule| == |ks| && forall k :: 0 <= k < |ks| ==> Valid(ks[k].rest)
    ensures Valid(r)
    decreases |schedule|
  {
    if schedule == [] then s
    else
      var n := |schedule| - 1;
      ThreadStep(p, d, ThreadRun(p, d, s, schedule[..n], ks[..n]), After(schedule[..n]), schedule[n], ks[n])
  }

  /** Receptions since the last check. */
  function Unchecked(d: Duplex, schedule: seq<bool>): nat
    requires Covered(d)
  {
    if schedule == [] then 0
    else
      var before := Unchecked(d, schedule[..|schedule| - 1]);
      match LastKind(d, schedule)
      case Reception => before + 1
      case Check => 0
      case Nothing => before
  }

  /** Every reception is checked before the next one. */
  ghost predicate CheckedInTime(d: Duplex, schedule: seq<bool>)
    requires Covered(d)
  {
    forall n :: 0 <= n <= |schedule| ==> Unchecked(d, schedule[..n]) <= 1
  }

  lemma ReceiveAddsAtMostOne(p: Params, d: Duplex, s: Ulsch, t: nat, k: Subframe)
    requires Covered(d) && Valid(s) && UplinkAt(d, t)
    ensures AnyReceive(p, d, s, t, k).consecutiveErrors <= s.consecutiveErrors + 1
  {
    UplinkHasProcess(d, t);
    ReceiveAdds(p, d, s, FrameOf(t), SubframeOf(t), k.ok, k.keepsMsg3);
    hide Receive;
  }

  /** What one step does to the counter, by its kind. */
  lemma StepBound(p: Params, d: Duplex, s: Ulsch, schedule: seq<bool>, k: Subframe)
    requires Covered(d) && Valid(s) && Valid(k.rest) && schedule != []
    ensures var n := |schedule| - 1;
            var c, r := s.consecutiveErrors, ThreadStep(p, d, s, After(schedule[..n]), schedule[n], k).consecutiveErrors;
            match LastKind(d, schedule)
            case Reception => r <= c + 1
            case Check => r == if c == p.threshold then 0 else c
            case Nothing => r <= c
  {
    var n := |schedule| - 1;
    var x, odd := After(schedule[..n]), schedule[n];
    if LastKind(d, schedule) == Reception {
      ReceiveAddsAtMostOne(p, d, Before(s, k), MoverTick(x, odd), k);
    }
    hide AnyReceive, Checks, UplinkAt, After;
  }

  lemma {:induction false} TimelyChecksSuffice(p: Params, d: Duplex, s: Ulsch, schedule: seq<bool>, ks: seq<Subframe>)
    requires Covered(d) && Valid(s) && |schedule| == |ks| && forall k :: 0 <= k < |ks| ==> Valid(ks[k].rest)
    requires p.threshold >= 1 && s.consecutiveErrors < p.threshold && CheckedInTime(d, schedule)
    ensures ThreadRun(p, d, s, schedule, ks).consecutiveErrors <= p.threshold - 1 + Unchecked(d, schedule) <= p.threshold
  {
    assert schedule[..|schedule|] == schedule;
    if schedule != [] {
      var n := |schedule| - 1;
      var init := schedule[..n];
      assert forall i :: 0 <= i <= n ==> init[..i] == schedule[..i];
      TimelyChecksSuffice(p, d, s, init, ks[..n]);
      StepBound(p, d, ThreadRun(p, d, s, init, ks[..n]), schedule, ks[n]);
    }
    hide ThreadStep, LastKind, After;
  }

  /* a late check lets the counter pass */

  /** Nothing is received in this step, */
  function Quiet(): (k: Subframe)
    ensures Valid(k.rest)
  {
    Subframe(Idle(), false, false, false, false)
  }

  /** or a block is exhausted. */
  function Failing(p: Params): (k: Subframe)
    requires p.mLimit >= 1
    ensures Valid(k.rest)
  {
    Subframe(LastChance(p, Idle()), false, false, false, false)
  }

  /** What to find in each step so that the last v receptions of the schedule fail and the others are quiet. */
  function Finds(p: Params, d: Duplex, schedule: seq<bool>, v: nat): (ks: seq<Subframe>)
    requires Covered(d) && p.mLimit >= 1
    ensures |ks| == |schedule| && forall k :: 0 <= k < |ks| ==> Valid(ks[k].rest)
    decreases |schedule|
  {
    if schedule == [] then []
    else
      var init := schedule[..|schedule| - 1];
      if v > 0 && LastKind(d, schedule) == Reception then Finds(p, d, init, v - 1) + [Failing(p)]
      else Finds(p, d, init, v) + [Quiet()]
  }

  lemma QuietStep(p: Params, d: Duplex, s: Ulsch, x: Threads, odd: bool)
    requires Covered(d) && Valid(s) && s.consecutiveErrors != p.threshold
    ensures ThreadStep(p, d, s, x, odd, Quiet()).consecutiveErrors == s.consecutiveErrors
  {
    var n := MoverTick(x, odd);
    if UplinkAt(d, n) {
      UplinkHasProcess(d, n);
    }
    hide After, FrameOf, SubframeOf, Failed, Decoded;
  }

  lemma NotCheckedStep(p: Params, d: Duplex, s: Ulsch, schedule: seq<bool>, fails: bool)
    requires Covered(d) && Valid(s) && schedule != [] && p.mLimit >= 1 && LastKind(d, schedule) != Check
    requires fails ==> LastKind(d, schedule) == Reception
    ensures var n := |schedule| - 1;
            ThreadStep(p, d, s, After(schedule[..n]), schedule[n], if fails then Failing(p) else Quiet()).consecutiveErrors
            == s.consecutiveErrors + if fails then 1 else 0
  {
    var n := |schedule| - 1;
    var x, odd := After(schedule[..n]), schedule[n];
    var t := MoverTick(x, odd);
    if UplinkAt(d, t) {
      UplinkHasProcess(d, t);
    }
    if fails {
      var before := Before(s, Failing(p));
      assert before == LastChance(p, Idle()).(consecutiveErrors := s.consecutiveErrors, trace := s.trace);
      assert before == LastChance(p, Idle().(consecutiveErrors := s.consecutiveErrors, trace := s.trace));
      LastChanceFails(p, d, Idle().(consecutiveErrors := s.consecutiveErrors, trace := s.trace), FrameOf(t), SubframeOf(t), false);
    }
    hide After, FrameOf, SubframeOf, Failed, Decoded, LastChance;
  }

  /** From one below the threshold, v unchecked receptions can raise the counter by v. */
  lemma {:induction false} FindsRaise(p: Params, d: Duplex, s: Ulsch, schedule: seq<bool>, v: nat)
    requires Covered(d) && Valid(s) && p.mLimit >= 1 && p.threshold >= 1 && s.consecutiveErrors == p.threshold - 1
    requires v <= Unchecked(d, schedule)
    ensures ThreadRun(p, d, s, schedule, Finds(p, d, schedule, v)).consecutiveErrors == p.threshold - 1 + v
    decreases |schedule|
  {
    if schedule != [] {
      var n := |schedule| - 1;
      var init, fails := schedule[..n], v > 0 && LastKind(d, schedule) == Reception;
      var rest := if fails then v - 1 else v;
      FindsRaise(p, d, s, init, rest);
      assert Finds(p, d, schedule, v)[..n] == Finds(p, d, init, rest);
      var before := ThreadRun(p, d, s, init, Finds(p, d, init, rest));
      if LastKind(d, schedule) == Check {
        QuietStep(p, d, before, After(init), schedule[n]);
      } else {
        NotCheckedStep(p, d, before, schedule, fails);
      }
    }
    hide ThreadStep, LastKind, After, Quiet, Failing;
  }

  /** Under this schedule, whatever is received and whatever the counter starts from below the threshold, the counter never
      passes the threshold. */
  ghost predicate NeverPasses(p: Params, d: Duplex, schedule: seq<bool>)
    requires Covered(d)
  {
    forall s: Ulsch, ks: seq<Subframe>, n | Valid(s) && s.consecutiveErrors < p.threshold && 0 <= n <= |schedule| && |ks| == n
      && (forall k :: 0 <= k < |ks| ==> Valid(ks[k].rest)) ::
      ThreadRun(p, d, s, schedule[..n], ks).consecutiveErrors <= p.threshold
  }

  /** With the routines of both threads and for any schedule: no outcomes carry the counter past the threshold exactly if every
      reception is checked before the next one. */
  lemma NeverPassesExactly(p: Params, d: Duplex, schedule: seq<bool>)
    requires Covered(d) && p.threshold >= 1 && p.mLimit >= 1
    ensures NeverPasses(p, d, schedule) <==> CheckedInTime(d, schedule)
  {
    if CheckedInTime(d, schedule) {
      forall s: Ulsch, ks: seq<Subframe>, n | Valid(s) && s.consecutiveErrors < p.threshold && 0 <= n <= |schedule| && |ks| == n
        && (forall k :: 0 <= k < |ks| ==> Valid(ks[k].rest))
        ensures ThreadRun(p, d, s, schedule[..n], ks).consecutiveErrors <= p.threshold
      {
        PrefixInTime(d, schedule, n);
        TimelyChecksSuffice(p, d, s, schedule[..n], ks);
      }
    } else {
      var n :| 0 <= n <= |schedule| && Unchecked(d, schedule[..n]) > 1;
      var s := Idle().(consecutiveErrors := p.threshold - 1);
      FindsRaise(p, d, s, schedule[..n], 2);
    }
    hide ThreadRun, Unchecked, Finds;
  }

  lemma PrefixInTime(d: Duplex, schedule: seq<bool>, n: nat)
    requires Covered(d) && CheckedInTime(d, schedule) && n <= |schedule|
    ensures CheckedInTime(d, schedule[..n])
  {
    var init := schedule[..n];
    assert forall i :: 0 <= i <= n ==> init[..i] == schedule[..i];
  }

  /* the front end allows such schedules */

  lemma Snoc(schedule: seq<bool>, odd: bool)
    ensures After(schedule + [odd]) == Moved(After(schedule), odd)
    ensures Possible(schedule + [odd]) <==> Possible(schedule) && Allowed(After(schedule), odd)
  {
    assert (schedule + [odd])[..|schedule|] == schedule;
  }

  lemma SnocReception(d: Duplex, schedule: seq<bool>, odd: bool)
    requires Covered(d) && !Mover(After(schedule), odd).received && UplinkAt(d, MoverTick(After(schedule), odd))
    ensures Unchecked(d, schedule + [odd]) == Unchecked(d, schedule) + 1
  {
    assert (schedule + [odd])[..|schedule|] == schedule;
    hide After, UplinkAt, Checks;
  }

  predicate IsOdd(n: nat) { n % 2 == 1 }

  /** Subframes 0 to n - 1, one after the other. */
  function InOrder(n: nat): seq<bool>
  {
    if n == 0 then [] else InOrder(n - 1) + [IsOdd(n - 1)] + [IsOdd(n - 1)]
  }

  function BeforeTick(n: nat): Threads
  {
    Threads(Thread((n + 1) / 2, false), Thread(n / 2, false))
  }

  lemma WholeTick(n: nat)
    ensures var x, odd := BeforeTick(n), IsOdd(n);
            Allowed(x, odd) && Allowed(Moved(x, odd), odd) && Moved(Moved(x, odd), odd) == BeforeTick(n + 1)
  {
  }

  lemma {:induction false} InOrderRuns(n: nat)
    ensures Possible(InOrder(n)) && After(InOrder(n)) == BeforeTick(n)
  {
    hide After, Possible, Allowed, Moved, BeforeTick, IsOdd;
    if n == 0 {
      NothingRuns();
    } else {
      var before, odd := InOrder(n - 1), IsOdd(n - 1);
      InOrderRuns(n - 1);
      WholeTick(n - 1);
      Snoc(before, odd);
      Snoc(before + [odd], odd);
    }
  }

  lemma NothingRuns()
    ensures Possible(InOrder(0)) && After(InOrder(0)) == BeforeTick(0)
  {
  }

  /** Subframes n and n + 1 are received before either is checked. */
  function Overlap(n: nat): seq<bool>
  {
    InOrder(n) + [IsOdd(n)] + [!IsOdd(n)]
  }

  lemma OverlapSteps(n: nat)
    ensures var x, odd := BeforeTick(n), IsOdd(n);
            && Allowed(x, odd) && !Mover(x, odd).received && MoverTick(x, odd) == n
            && Allowed(Moved(x, odd), !odd) && !Mover(Moved(x, odd), !odd).received && MoverTick(Moved(x, odd), !odd) == n + 1
  {
  }

  /** The front end allows such a schedule from any two uplink subframes in a row, and so lets the counter pass the threshold. */
  lemma OverlapIsPossible(p: Params, d: Duplex, n: nat)
    requires Covered(d) && UplinkAt(d, n) && UplinkAt(d, n + 1) && p.threshold >= 1 && p.mLimit >= 1
    ensures Possible(Overlap(n)) && !CheckedInTime(d, Overlap(n)) && !NeverPasses(p, d, Overlap(n))
  {
    hide After, Allowed, Moved, Mover, MoverTick, BeforeTick, IsOdd, Possible, UplinkAt, InOrder, Unchecked, NeverPasses;
    var before, odd := InOrder(n), IsOdd(n);
    InOrderRuns(n);
    OverlapSteps(n);
    Snoc(before, odd);
    SnocReception(d, before, odd);
    Snoc(before + [odd], !odd);
    SnocReception(d, before + [odd], !odd);
    assert Overlap(n)[..|Overlap(n)|] == Overlap(n);
    assert Unchecked(d, Overlap(n)) >= 2;
    NeverPassesExactly(p, d, Overlap(n));
  }

  /** An overlap in the routines themselves: two blocks in their last round, received in subframes n and n + 1 with the counter
      one below the threshold. Neither of the two checks that follow indicates failure. */
  lemma OverlapMisses(p: Params, s: Ulsch, n: nat)
    requires Valid(s) && p.threshold >= 1 && p.mLimit >= 1 && s.rnti > 0 && s.mode == Pusch && !s.msg3Flag
    requires s.consecutiveErrors == p.threshold - 1
    requires forall t :: t == n || t == n + 1 ==> s.processes[t % 8].scheduled && s.processes[t % 8].round == p.mLimit - 1
    ensures var k := Tick(false, false);
            var r := FddReceive(p, FddReceive(p, s, n, k), n + 1, k);
            var u := CheckFailure(p, CheckFailure(p, r));
            u.consecutiveErrors == p.threshold + 1 && u.trace == s.trace + [Exhausted(n % 8)] + [Exhausted((n + 1) % 8)]
  {
    var k := Tick(false, false);
    FddPidIsTimeModEight(n);
    FddPidIsTimeModEight(n + 1);
    assert n % 8 != (n + 1) % 8;
    var t, t' := n, n + 1;
    assert s.processes[t % 8].scheduled && s.processes[t' % 8].scheduled;
    ExhaustedInReceive(p, s, n);
    var a := FddReceive(p, s, n, k);
    assert a.processes[(n + 1) % 8] == s.processes[(n + 1) % 8];
    ExhaustedInReceive(p, a, n + 1);
    hide FddReceive;
  }

  lemma ExhaustedInReceive(p: Params, s: Ulsch, n: nat)
    requires Valid(s) && p.mLimit >= 1 && s.rnti > 0 && s.mode == Pusch && !s.msg3Flag
    requires s.processes[n % 8].scheduled && s.processes[n % 8].round == p.mLimit - 1
    ensures FddReceive(p, s, n, Tick(false, false))
         == s.(processes := s.processes[n % 8 := UlProcess(0, false, false, false)],
               errors := s.errors[n % 8 := s.errors[n % 8] + 1],
               consecutiveErrors := s.consecutiveErrors + 1, trace := s.trace + [Exhausted(n % 8)])
  {
    FddPidIsTimeModEight(n);
  }
}
