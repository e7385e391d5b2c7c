/** Where the first uplink message of a new user goes: first transmission, retransmission and HARQ process. */
module Msg3Timing {
  import opened Options
  import opened FrameTiming

  datatype Slot = Slot(frame: nat, subframe: nat)

  /** None: the routine leaves its outputs as they were. */
  function GetMsg3Alloc(d: Duplex, subframe: nat, frame: nat): Option<Slot>
  {
    match d
    case Fdd =>
      if subframe + 6 > 9 then Some(Slot((frame + 1) % FRAMES, subframe - 4)) else Some(Slot(frame, subframe + 6))
    case Tdd(config) =>
      var next := (frame + 1) % FRAMES;
      var afterNext := (frame + 2) % FRAMES;
      if config == 1 then
        match subframe
        case 0 => Some(Slot(frame, 7))
        case 4 => Some(Slot(next, 2))
        case 5 => Some(Slot(next, 2))
        case 9 => Some(Slot(next, 7))
        case _ => None
      else if config == 3 then
        match subframe
        case 0 => Some(Slot(next, 2))
        case 5 => Some(Slot(next, 2))
        case 6 => Some(Slot(next, 2))
        case 7 => Some(Slot(next, 3))
        case 8 => Some(Slot(next, 4))
        case 9 => Some(Slot(afterNext, 2))
        case _ => None
      else if config == 4 then
        match subframe
        case 0 => Some(Slot(next, 2))
        case 4 => Some(Slot(next, 2))
        case 5 => Some(Slot(next, 2))
        case 6 => Some(Slot(next, 2))
        case 7 => Some(Slot(next, 3))
        case 8 => Some(Slot(afterNext, 2))
        case 9 => Some(Slot(afterNext, 2))
        case _ => None
      else if config == 5 then
        match subframe
        case 0 => Some(Slot(next, 2))
        case 4 => Some(Slot(next, 2))
        case 5 => Some(Slot(next, 2))
        case 6 => Some(Slot(next, 2))
        case 7 => Some(Slot(afterNext, 2))
        case 8 => Some(Slot(afterNext, 2))
        case 9 => Some(Slot(afterNext, 2))
        case _ => None
      else None
  }

  /** The subframe output is left alone in TDD, and the frame output too in configurations it does not know. */
  function GetMsg3AllocRet(d: Duplex, subframe: nat, frame: nat, current: Slot): Slot
  {
    match d
    case Fdd =>
      if subframe + 8 > 9 then Slot((frame + 1) % FRAMES, subframe - 2) else Slot(frame, subframe + 8)
    case Tdd(config) =>
      if config in {1, 3, 4, 5} then current.(frame := (frame + 1) % FRAMES) else current
  }

  /** The process prepared for Msg3, from its own table of subframes. */
  function Msg3UplinkSubframe(d: Duplex, subframe: nat): nat
  {
    match d
    case Fdd => if subframe > 3 then subframe - 4 else subframe + 6
    case Tdd(config) =>
      if config == 1 then
        if subframe == 9 || subframe == 0 then 7 else if subframe == 5 || subframe == 7 then 2 else 0
      else if config == 3 then
        if subframe in {0, 5, 6, 9} then 2 else if subframe == 7 then 3 else if subframe == 8 then 4 else 0
      else if config == 4 then
        if subframe in {0, 5, 6, 8, 9} then 2 else if subframe == 7 then 3 else 0
      else if config == 5 then 2
      else 0
  }

  function Msg3HarqPid(d: Duplex, frame: nat, subframe: nat): nat
  {
    var ulFrame := if d.Fdd? then if subframe > 3 then (frame + 1) % FRAMES else frame else 0;
    HarqPid(d, ulFrame, Msg3UplinkSubframe(d, subframe))
  }

  /* ---------- properties ---------- */

  predicate Covered(d: Duplex)
  {
    d.Fdd? || d.config in {1, 3, 4, 5}
  }

  predicate UplinkAt(d: Duplex, t: nat)
  {
    IsUplink(d, SubframeOf(t))
  }

  /** k is the smallest distance of at least `least` subframes after time t that falls on an uplink subframe. */
  ghost predicate EarliestUplink(d: Duplex, t: nat, least: nat, k: nat)
  {
    && least <= k && UplinkAt(d, t + k)
    && forall u: nat :: t + least <= u < t + k ==> !UplinkAt(d, u)
  }

  function Distance(d: Duplex, subframe: nat): nat
  {
    if d.Fdd? then 6
    else if d.config == 1 then (match subframe case 0 => 7 case 4 => 8 case 5 => 7 case _ => 8)
    else if d.config == 3 then
      (match subframe case 0 => 12 case 5 => 7 case 6 => 6 case 7 => 6 case 8 => 6 case _ => 13)
    else if d.config == 4 then
      (match subframe case 0 => 12 case 4 => 8 case 5 => 7 case 6 => 6 case 7 => 6 case 8 => 14 case _ => 13)
    else (match subframe case 0 => 12 case 4 => 8 case 5 => 7 case 6 => 6 case 7 => 15 case 8 => 14 case _ => 13)
  }

  lemma NothingEarlier(d: Duplex, sf: nat, j: nat)
    requires Covered(d) && sf < 10 && GetMsg3Alloc(d, sf, 0).Some? && 6 <= j < Distance(d, sf)
    ensures !UplinkAt(d, sf + j)
  {
    var total := sf + j;
    assert total % 10 == if total < 10 then total else if total < 20 then total - 10 else total - 20;
  }

  lemma DistanceHitsUplink(d: Duplex, sf: nat)
    requires Covered(d) && sf < 10 && GetMsg3Alloc(d, sf, 0).Some?
    ensures 6 <= Distance(d, sf) <= 15 && IsUplink(d, (sf + Distance(d, sf)) % 10)
  {
  }

  lemma AllocAtDistance(d: Duplex, sf: nat, frame: nat)
    requires Covered(d) && sf < 10 && GetMsg3Alloc(d, sf, frame).Some?
    ensures var k := Distance(d, sf);
            var total := sf + k;
            GetMsg3Alloc(d, sf, frame).value
            == Slot(if total < 10 then frame else (frame + total / 10) % FRAMES, total % 10)
  {
  }

  lemma TimeShift(t: nat, k: nat)
    ensures SubframeOf(t + k) == (SubframeOf(t) + k) % 10
    ensures FrameOf(t + k) == (FrameOf(t) + (SubframeOf(t) + k) / 10) % FRAMES
  {
    var q, r := t / 10, t % 10;
    assert t + k == 10 * q + (r + k);
    var c := (r + k) / 10;
    assert t + k == 10 * (q + c) + (r + k) % 10;
    assert (t + k) / 10 == q + c;
    assert q == 1024 * (q / 1024) + q % 1024;
    ModPlus(q, c);
  }

  lemma ModPlus(q: nat, c: nat)
    ensures (q + c) % 1024 == (q % 1024 + c) % 1024
  {
    var m := q % 1024 + c;
    assert q + c == 1024 * (q / 1024) + m;
    assert m == 1024 * (m / 1024) + m % 1024;
    var whole := q / 1024 + m / 1024;
    assert q + c == 1024 * whole + m % 1024;
  }

  /** Section 6.1.1 of TS 36.213: Msg3 goes to the first uplink subframe at least six subframes after the response,
      in FDD and in the four TDD configurations, for every frame number including the wrap. */
  lemma Msg3GoesToEarliestUplink(d: Duplex, t: nat)
    requires Covered(d) && GetMsg3Alloc(d, SubframeOf(t), FrameOf(t)).Some?
    ensures exists k :: EarliestUplink(d, t, 6, k)
              && GetMsg3Alloc(d, SubframeOf(t), FrameOf(t)) == Some(Slot(FrameOf(t + k), SubframeOf(t + k)))
  {
    var sf, k := SubframeOf(t), Distance(d, SubframeOf(t));
    AllocAtDistance(d, sf, FrameOf(t));
    forall u: nat | t + 6 <= u < t + k
      ensures !UplinkAt(d, u)
    {
      NothingEarlier(d, sf, u - t);
      TimeShift(t, u - t);
    }
    TimeShift(t, k);
    FrameBelow(t);
    assert UplinkAt(d, t + k) by { DistanceHitsUplink(d, sf); }
    assert EarliestUplink(d, t, 6, k);
  }

  lemma FrameBelow(t: nat)
    ensures FrameOf(t) % FRAMES == FrameOf(t) < FRAMES
  {
  }

  /** A response is handled in exactly the downlink subframes, except subframe 3 of configuration 5. */
  lemma Msg3HandledExactly(d: Duplex, sf: nat, frame: nat)
    requires Covered(d) && sf < 10
    ensures GetMsg3Alloc(d, sf, frame).Some?
       <==> d.Fdd? || (SubframeSelect(d, sf) == Downlink && !(d.config == 5 && sf == 3))
  {
  }

  /** The two tables name the same HARQ process exactly when the response is not in subframe 4 of configuration 1 or 4;
      there the prepared process is not a process at all. */
  lemma Msg3ProcessAgreesExactly(d: Duplex, t: nat)
    requires Covered(d) && GetMsg3Alloc(d, SubframeOf(t), FrameOf(t)).Some?
    ensures var slot := GetMsg3Alloc(d, SubframeOf(t), FrameOf(t)).value;
            var odd := d.Tdd? && d.config in {1, 4} && SubframeOf(t) == 4;
            && (Msg3HarqPid(d, FrameOf(t), SubframeOf(t)) == HarqPid(d, slot.frame, slot.subframe) <==> !odd)
            && (odd ==> Msg3HarqPid(d, FrameOf(t), SubframeOf(t)) >= 8)
  {
  }

  /** In the other TDD configurations no retransmission is scheduled: the slot stays the one that has passed. */
  lemma NoRetransmissionElsewhere(d: Duplex, subframe: nat, frame: nat, current: Slot)
    requires subframe < 10 && frame < FRAMES && current == Slot(frame, subframe)
    ensures GetMsg3AllocRet(d, subframe, frame, current) == current <==> !Covered(d)
  {
    assert (frame + 1) % FRAMES != frame;
  }

  /** A slot is met once in every cycle of frame numbers. */
  lemma SlotMetOnce(t: nat, m: nat)
    requires t <= m < t + 10 * FRAMES
    ensures Slot(FrameOf(t), SubframeOf(t)) == Slot(FrameOf(m), SubframeOf(m)) <==> t == m
  {
    if FrameOf(t) == FrameOf(m) && SubframeOf(t) == SubframeOf(m) {
      var a, b := t / 10, m / 10;
      assert m - t == 10 * (b - a);
      assert b - a == 1024 * (b / 1024 - a / 1024);
    }
  }

  /** Retransmissions keep the HARQ process: eight subframes later in FDD, the same subframe of the next frame in TDD. */
  lemma RetransmissionKeepsProcess(d: Duplex, t: nat)
    requires Covered(d)
    ensures var sf, frame := SubframeOf(t), FrameOf(t);
            var r := GetMsg3AllocRet(d, sf, frame, Slot(frame, sf));
            && HarqPid(d, r.frame, r.subframe) == HarqPid(d, frame, sf)
            && r == (if d.Fdd? then Slot(FrameOf(t + 8), SubframeOf(t + 8)) else Slot(FrameOf(t + 10), SubframeOf(t + 10)))
  {
    FrameBelow(t);
    if d.Fdd? {
      TimeShift(t, 8);
      var sf := SubframeOf(t);
      assert (sf + 8) / 10 == if sf + 8 > 9 then 1 else 0;
      assert (sf + 8) % 10 == if sf + 8 > 9 then sf - 2 else sf + 8;
      assert GetMsg3AllocRet(d, sf, FrameOf(t), Slot(FrameOf(t), sf)) == Slot(FrameOf(t + 8), SubframeOf(t + 8));
      FddPidIsTimeModEight(t);
      FddPidIsTimeModEight(t + 8);
      ModEight(t + 8, 1);
    } else {
      TimeShift(t, 10);
    }
  }
}
