/** Which downlink subframes an uplink subframe acknowledges: the base station's table, the terminal's table,
    and the terminal's own record of what it received. */
module AckTables {
  import opened FrameTiming

  /** Feedback is modelled for FDD and for the TDD configurations with at most two subframes per report. */
  predicate Supported(d: Duplex)
  {
    d.Fdd? || d.config == 1 || d.config == 3
  }

  /* ---------- the base station ---------- */

  function UlAckM(d: Duplex, subframe: nat): nat
  {
    match d
    case Fdd => 1
    case Tdd(config) =>
      if config == 3 then if subframe in {2, 3, 4} then 2 else 0
      else if config == 1 then
        if subframe == 2 || subframe == 7 then 2 else if subframe == 3 || subframe == 8 then 1 else 0
      else 0   // other configurations are not part of this model
  }

  function UlAckDlSubframe(d: Duplex, subframe: nat, index: nat): nat
  {
    match d
    case Fdd => if subframe < 4 then subframe + 6 else subframe - 4
    case Tdd(config) =>
      if config == 3 then
        if subframe == 2 then (if index == 2 then 1 else 5 + index)
        else if subframe == 3 then 7 + index
        else if subframe == 4 then (9 + index) % 10
        else 0
      else if config == 1 then
        if subframe == 2 then 5 + index
        else if subframe == 3 then 9
        else if subframe == 7 then index
        else if subframe == 8 then 4
        else 0
      else 0
  }

  lemma DlSubframeInRange(d: Duplex, subframe: nat, m: nat)
    requires Supported(d) && subframe < 10 && m < UlAckM(d, subframe)
    ensures UlAckDlSubframe(d, subframe, m) < 10
  {
  }

  /* ---------- the terminal ---------- */

  type AckCode = n: nat | n < 3   // 0 NACK, 1 ACK, 2 nothing received

  datatype HarqStatus = HarqStatus(ack: AckCode, send: bool, vDaiDl: nat, vDaiUl: nat)

  const UNTOUCHED := 0xff

  /** Bitwise and of two codes. */
  function And(a: AckCode, b: AckCode): AckCode { if a == b then a else 0 }

  predicate UeLegal(d: Duplex, subframeTx: nat)
  {
    d.Fdd? || (d.config == 1 && subframeTx in {2, 3, 4, 7, 8}) || (d.config == 3 && subframeTx in {2, 3, 4})
  }

  /** The downlink subframes of the terminal's own table, in its order. */
  function UeSet(d: Duplex, subframeTx: nat): (r: seq<nat>)
    requires UeLegal(d, subframeTx)
    ensures subframeTx < 10 ==> forall k :: 0 <= k < |r| ==> r[k] < 10
  {
    match d
    case Fdd => [if subframeTx < 4 then subframeTx + 6 else subframeTx - 4]
    case Tdd(config) =>
      if config == 1 then
        match subframeTx
        case 2 => [5, 6]
        case 3 => [9]
        case 7 => [0, 1]
        case 8 => [4]
        case _ => []
      else
        match subframeTx
        case 2 => [5, 6]
        case 3 => [7, 8]
        case _ => [9, 0]
  }

  predicate Records(acks: seq<HarqStatus>)
  {
    && |acks| == 10
    && forall j :: 0 <= j < 10 ==> acks[j].send ==> acks[j].ack <= 1
  }

  predicate AnySent(acks: seq<HarqStatus>, subframes: seq<nat>)
    requires |acks| == 10 && forall k :: 0 <= k < |subframes| ==> subframes[k] < 10
  {
    exists k :: 0 <= k < |subframes| && acks[subframes[k]].send
  }

  predicate AllAcked(acks: seq<HarqStatus>, subframes: seq<nat>)
    requires |acks| == 10 && forall k :: 0 <= k < |subframes| ==> subframes[k] < 10
  {
    forall k :: 0 <= k < |subframes| ==> acks[subframes[k]].send ==> acks[subframes[k]].ack == 1
  }

  lemma PairOf(acks: seq<HarqStatus>, dl0: nat, dl1: nat)
    requires |acks| == 10 && dl0 < 10 && dl1 < 10
    ensures AnySent(acks, [dl0, dl1]) == (acks[dl0].send || acks[dl1].send)
    ensures AllAcked(acks, [dl0, dl1]) == ((acks[dl0].send ==> acks[dl0].ack == 1) && (acks[dl1].send ==> acks[dl1].ack == 1))
    ensures AnySent(acks, [dl0]) == acks[dl0].send
    ensures AllAcked(acks, [dl0]) == (acks[dl0].send ==> acks[dl0].ack == 1)
  {
    var two, one := [dl0, dl1], [dl0];
    assert two[0] == dl0 && two[1] == dl1 && one[0] == dl0;
  }

  /** What the reset leaves of one record; FDD only withdraws the request to send. */
  function Cleared(d: Duplex, h: HarqStatus): HarqStatus
  {
    match d
    case Fdd => h.(send := false)
    case Tdd(config) => if config == 1 then h.(ack := 2, send := false, vDaiDl := UNTOUCHED) else h.(ack := 2, send := false)
  }

  function UlGrantSubframe(d: Duplex, subframeTx: nat): nat
  {
    if d == Tdd(1) then
      match subframeTx
      case 2 => 6
      case 3 => 9
      case 7 => 1
      case 8 => 4
      case _ => UNTOUCHED
    else UNTOUCHED
  }

  function ResetOne(d: Duplex, subframeTx: nat, h: HarqStatus, j: nat): HarqStatus
    requires UeLegal(d, subframeTx)
  {
    var g := if j == UlGrantSubframe(d, subframeTx) then h.(vDaiUl := UNTOUCHED) else h;
    if j in UeSet(d, subframeTx) then Cleared(d, g) else g
  }

  function AfterReset(d: Duplex, subframeTx: nat, acks: seq<HarqStatus>): (r: seq<HarqStatus>)
    requires |acks| == 10 && subframeTx < 10 && UeLegal(d, subframeTx)
    ensures |r| == 10
    ensures forall j :: 0 <= j < 10 ==> r[j].send == (acks[j].send && j !in UeSet(d, subframeTx))
    ensures forall j :: 0 <= j < 10 && j !in UeSet(d, subframeTx) ==> r[j].ack == acks[j].ack
  {
    seq(10, (j: nat) requires j < 10 => ResetOne(d, subframeTx, acks[j], j))
  }

  function Sends(acks: seq<HarqStatus>, j: nat): nat
    requires j < |acks|
  {
    if acks[j].send then 1 else 0
  }

  /** The status returned to the caller of get_ack: how much there is to report, 0 for nothing. */
  function ReportStatus(d: Duplex, subframeTx: nat, acks: seq<HarqStatus>): nat
    requires |acks| == 10 && subframeTx < 10 && UeLegal(d, subframeTx)
  {
    var set_ := UeSet(d, subframeTx);
    if d == Tdd(1) then
      if !AnySent(acks, set_) then 0
      else if acks[UlGrantSubframe(d, subframeTx)].vDaiUl < UNTOUCHED then acks[UlGrantSubframe(d, subframeTx)].vDaiUl
      else 1
    else if d == Tdd(3) then Sends(acks, set_[0]) + Sends(acks, set_[1])
    else Sends(acks, set_[0])
  }

  class UeAcks {
    var harqAck: array<HarqStatus>

    ghost predicate Valid()
      reads this, harqAck
    {
      harqAck.Length == 10 && Records(harqAck[..])
    }

    constructor ()
      ensures Valid() && fresh(harqAck)
      ensures forall j :: 0 <= j < 10 ==> !harqAck[j].send
    {
      harqAck := new HarqStatus[10](_ => HarqStatus(2, false, UNTOUCHED, UNTOUCHED));
    }

    /** The feedback bit and status for an uplink subframe; with `reset` the records it used are cleared. */
    method GetResetAck(d: Duplex, subframeTx: nat, subframeRx: nat, reset: bool, oldAck: AckCode, oldBundled: nat)
      returns (status: nat, oAck: AckCode, nBundled: nat)
      requires Valid() && Supported(d) && subframeTx < 10 && subframeRx < 10
      modifies harqAck
      ensures Valid()
      ensures !UeLegal(d, subframeTx) ==>
                status == 0 && oAck == oldAck && nBundled == oldBundled && harqAck[..] == old(harqAck[..])
      ensures UeLegal(d, subframeTx) ==>
                && status == ReportStatus(d, subframeTx, old(harqAck[..]))
                && (AnySent(old(harqAck[..]), UeSet(d, subframeTx)) ==>
                      oAck == if AllAcked(old(harqAck[..]), UeSet(d, subframeTx)) then 1 else 0)
                && (!AnySent(old(harqAck[..]), UeSet(d, subframeTx)) ==>
                      oAck == if d.Fdd? then old(harqAck[UeSet(d, subframeTx)[0]]).ack else 0)
                && nBundled == (if d == Tdd(3) then old(harqAck[subframeRx]).vDaiUl else oldBundled)
                && harqAck[..] == (if reset then AfterReset(d, subframeTx, old(harqAck[..])) else old(harqAck[..]))
    {
      status, oAck, nBundled := 0, oldAck, oldBundled;
      if d.Fdd? {
        var dl := if subframeTx < 4 then subframeTx + 6 else subframeTx - 4;
        assert UeSet(d, subframeTx)[0] == dl;
        oAck := harqAck[dl].ack;
        status := if harqAck[dl].send then 1 else 0;
        if reset {
          harqAck[dl] := harqAck[dl].(send := false);
        }
      } else if d.config == 1 {
        status, oAck := GetResetAckConfig1(subframeTx, reset, oldAck);
      } else {
        status, oAck, nBundled := GetResetAckConfig3(subframeTx, subframeRx, reset, oldAck, oldBundled);
      }
    }

    method GetResetAckConfig1(subframeTx: nat, reset: bool, oldAck: AckCode) returns (status: nat, oAck: AckCode)
      requires Valid() && subframeTx < 10
      modifies harqAck
      ensures Valid()
      ensures !UeLegal(Tdd(1), subframeTx) ==> status == 0 && oAck == oldAck && harqAck[..] == old(harqAck[..])
      ensures UeLegal(Tdd(1), subframeTx) ==>
                && status == ReportStatus(Tdd(1), subframeTx, old(harqAck[..]))
                && oAck == (if AnySent(old(harqAck[..]), UeSet(Tdd(1), subframeTx))
                               && AllAcked(old(harqAck[..]), UeSet(Tdd(1), subframeTx)) then 1 else 0)
                && harqAck[..] == (if reset then AfterReset(Tdd(1), subframeTx, old(harqAck[..])) else old(harqAck[..]))
    {
      var ul, dl0, dl1 := UNTOUCHED, UNTOUCHED, UNTOUCHED;
      if subframeTx == 2 {
        ul, dl0, dl1 := 6, 5, 6;
      } else if subframeTx == 3 {
        ul, dl0 := 9, 9;
      } else if subframeTx == 4 {
      } else if subframeTx == 7 {
        ul, dl0, dl1 := 1, 0, 1;
      } else if subframeTx == 8 {
        ul, dl0 := 4, 4;
      } else {
        return 0, oldAck;
      }
      assert ul == UlGrantSubframe(Tdd(1), subframeTx);
      assert UeSet(Tdd(1), subframeTx) == (if dl0 == UNTOUCHED then [] else if dl1 == UNTOUCHED then [dl0] else [dl0, dl1]);
      status, oAck := ReportConfig1(ul, dl0, dl1);
      if reset {
        ResetRecords(Tdd(1), subframeTx, ul, dl0, dl1);
      }
    }

    method ReportConfig1(ul: nat, dl0: nat, dl1: nat) returns (status: nat, oAck: AckCode)
      requires Valid() && (dl0 < 10 || dl0 == UNTOUCHED) && (dl1 < 10 || dl1 == UNTOUCHED)
      requires dl1 < 10 ==> dl0 < 10
      requires dl0 < 10 ==> ul < 10
      ensures var dls := if dl0 == UNTOUCHED then [] else if dl1 == UNTOUCHED then [dl0] else [dl0, dl1];
              && oAck == (if AnySent(harqAck[..], dls) && AllAcked(harqAck[..], dls) then 1 else 0)
              && status == (if !AnySent(harqAck[..], dls) then 0
                            else if harqAck[ul].vDaiUl < UNTOUCHED then harqAck[ul].vDaiUl else 1)
    {
      ghost var acks := harqAck[..];
      if dl0 < 10 {
        PairOf(acks, dl0, if dl1 < 10 then dl1 else dl0);
      }
      oAck, status := 1, 0;
      if dl0 < 10 && harqAck[dl0].send {
        oAck := And(oAck, harqAck[dl0].ack);
        status := 1;
      }
      if dl1 < 10 && harqAck[dl1].send {
        oAck := And(oAck, harqAck[dl1].ack);
        status := 1;
      }
      if status == 0 {
        oAck := 0;
      } else if harqAck[ul].vDaiUl < 0xff {
        status := harqAck[ul].vDaiUl;
      }
    }

    /** The tail of the routine: clear the records that were reported. */
    method ResetRecords(d: Duplex, subframeTx: nat, ul: nat, dl0: nat, dl1: nat)
      requires Valid() && Supported(d) && d.Tdd? && subframeTx < 10 && UeLegal(d, subframeTx)
      requires (dl0 < 10 || dl0 == UNTOUCHED) && (dl1 < 10 || dl1 == UNTOUCHED)
      requires ul == UlGrantSubframe(d, subframeTx) && (ul < 10 || ul == UNTOUCHED)
      requires forall j :: 0 <= j < 10 ==> (j in UeSet(d, subframeTx) <==> j == dl0 || j == dl1)
      modifies harqAck
      ensures Valid()
      ensures harqAck[..] == AfterReset(d, subframeTx, old(harqAck[..]))
    {
      if ul < 10 {
        harqAck[ul] := harqAck[ul].(vDaiUl := 0xff);
      }
      if dl0 < 10 {
        harqAck[dl0] := Cleared(d, harqAck[dl0]);
      }
      if dl1 < 10 {
        harqAck[dl1] := Cleared(d, harqAck[dl1]);
      }
      forall j | 0 <= j < 10
        ensures harqAck[j] == ResetOne(d, subframeTx, old(harqAck[j]), j)
      {
        assert j in UeSet(d, subframeTx) <==> j == dl0 || j == dl1;
      }
    }

    method GetResetAckConfig3(subframeTx: nat, subframeRx: nat, reset: bool, oldAck: AckCode, oldBundled: nat)
      returns (status: nat, oAck: AckCode, nBundled: nat)
      requires Valid() && subframeTx < 10 && subframeRx < 10
      modifies harqAck
      ensures Valid()
      ensures !UeLegal(Tdd(3), subframeTx) ==>
                status == 0 && oAck == oldAck && nBundled == oldBundled && harqAck[..] == old(harqAck[..])
      ensures UeLegal(Tdd(3), subframeTx) ==>
                && status == ReportStatus(Tdd(3), subframeTx, old(harqAck[..]))
                && oAck == (if AnySent(old(harqAck[..]), UeSet(Tdd(3), subframeTx))
                               && AllAcked(old(harqAck[..]), UeSet(Tdd(3), subframeTx)) then 1 else 0)
                && nBundled == old(harqAck[subframeRx]).vDaiUl
                && harqAck[..] == (if reset then AfterReset(Tdd(3), subframeTx, old(harqAck[..])) else old(harqAck[..]))
    {
      var dl0, dl1 := UNTOUCHED, UNTOUCHED;
      if subframeTx == 2 {
        dl0, dl1 := 5, 6;
      } else if subframeTx == 3 {
        dl0, dl1 := 7, 8;
      } else if subframeTx == 4 {
        dl0, dl1 := 9, 0;
      } else {
        return 0, oldAck, oldBundled;
      }
      assert UeSet(Tdd(3), subframeTx) == [dl0, dl1];
      PairOf(harqAck[..], dl0, dl1);
      oAck := 0;
      if harqAck[dl0].send {
        oAck := harqAck[dl0].ack;
        if harqAck[dl1].send {
          oAck := And(oAck, harqAck[dl1].ack);
        }
      } else if harqAck[dl1].send {
        oAck := harqAck[dl1].ack;
      }
      nBundled := harqAck[subframeRx].vDaiUl;
      status := (if harqAck[dl0].send then 1 else 0) + (if harqAck[dl1].send then 1 else 0);
      if reset {
        ResetRecords(Tdd(3), subframeTx, UNTOUCHED, dl0, dl1);
      }
    }
  }

  /* ---------- the two tables agree ---------- */

  /** The terminal acknowledges in an uplink subframe exactly the downlink subframes the base station will look up there, in the
      same order. */
  lemma TablesAgree(d: Duplex, subframe: nat, j: nat)
    requires Supported(d) && subframe < 10 && UeLegal(d, subframe)
    ensures j in UeSet(d, subframe) <==> exists m :: 0 <= m < UlAckM(d, subframe) && UlAckDlSubframe(d, subframe, m) == j
    ensures |UeSet(d, subframe)| == UlAckM(d, subframe)
    ensures forall m :: 0 <= m < UlAckM(d, subframe) ==> UlAckDlSubframe(d, subframe, m) == UeSet(d, subframe)[m]
  {
    var r := UeSet(d, subframe);
    forall m | 0 <= m < UlAckM(d, subframe)
      ensures UlAckDlSubframe(d, subframe, m) in r
    {
      assert UlAckDlSubframe(d, subframe, m) == r[m];
    }
    if j in r {
      var k :| 0 <= k < |r| && r[k] == j;
      assert UlAckDlSubframe(d, subframe, k) == j;
    }
  }

  /* ---------- what the status and the reset mean ---------- */

  /** How many of these subframes brought a block that has not been reported. */
  function CountSent(acks: seq<HarqStatus>, subframes: seq<nat>): nat
    requires |acks| == 10 && forall k :: 0 <= k < |subframes| ==> subframes[k] < 10
  {
    if subframes == [] then 0
    else CountSent(acks, subframes[1..]) + if acks[subframes[0]].send then 1 else 0
  }

  lemma {:induction false} CountSentPositive(acks: seq<HarqStatus>, subframes: seq<nat>)
    requires |acks| == 10 && forall k :: 0 <= k < |subframes| ==> subframes[k] < 10
    ensures CountSent(acks, subframes) > 0 <==> AnySent(acks, subframes)
  {
    if subframes != [] {
      var rest := subframes[1..];
      CountSentPositive(acks, rest);
      if k :| 0 <= k < |subframes| && acks[subframes[k]].send {
        assert k > 0 ==> acks[rest[k - 1]].send;
      }
      if k :| 0 <= k < |rest| && acks[rest[k]].send {
        assert acks[subframes[k + 1]].send;
      }
    }
  }

  /** The uplink grants in force carry a downlink assignment index of at least one, or none was received. */
  predicate GrantsCount(acks: seq<HarqStatus>)
  {
    forall j :: 0 <= j < |acks| ==> acks[j].vDaiUl > 0
  }

  /** In FDD and configuration 3 the status counts the unreported blocks of the set. In configuration 1 it is 0 if there is
      none; otherwise the index of the uplink grant, if one came in the last subframe of the set, and 1 if not. */
  lemma StatusMeans(d: Duplex, subframeTx: nat, acks: seq<HarqStatus>)
    requires |acks| == 10 && Supported(d) && subframeTx < 10 && UeLegal(d, subframeTx)
    ensures var r, status := UeSet(d, subframeTx), ReportStatus(d, subframeTx, acks);
            && (d != Tdd(1) ==> status == CountSent(acks, r))
            && (d == Tdd(1) ==>
                  if CountSent(acks, r) == 0 then status == 0
                  else
                    var index := acks[r[|r| - 1]].vDaiUl;
                    status == if index < UNTOUCHED then index else 1)
            && (GrantsCount(acks) ==> (status > 0 <==> AnySent(acks, r)))
  {
    var r := UeSet(d, subframeTx);
    CountSentPositive(acks, r);
    CountOfPair(acks, r);
    assert d == Tdd(1) && r != [] ==> UlGrantSubframe(d, subframeTx) == r[|r| - 1];
    if r != [] {
      PairOf(acks, r[0], r[|r| - 1]);
    }
    hide CountSent;
  }

  lemma CountOfPair(acks: seq<HarqStatus>, subframes: seq<nat>)
    requires |acks| == 10 && |subframes| <= 2 && forall k :: 0 <= k < |subframes| ==> subframes[k] < 10
    ensures |subframes| == 1 ==> CountSent(acks, subframes) == Sends(acks, subframes[0])
    ensures |subframes| == 2 ==> CountSent(acks, subframes) == Sends(acks, subframes[0]) + Sends(acks, subframes[1])
  {
    if |subframes| == 1 {
      assert subframes[1..] == [];
    } else if |subframes| == 2 {
      assert subframes[1..] == [subframes[1]] && [subframes[1]][1..] == [];
    }
  }

  /** A reset leaves nothing to report. It changes only records of the set: in FDD no more than the request to send; in TDD
      the answer is forgotten too, and in configuration 1 both indices, that of the uplink grant in the last record. */
  lemma ResetMeans(d: Duplex, subframeTx: nat, acks: seq<HarqStatus>, j: nat)
    requires |acks| == 10 && Supported(d) && subframeTx < 10 && UeLegal(d, subframeTx) && j < 10
    ensures var r, h, after := UeSet(d, subframeTx), acks[j], AfterReset(d, subframeTx, acks);
            && ReportStatus(d, subframeTx, after) == 0
            && (j !in r ==> after[j] == h)
            && (j in r ==>
                  after[j] == match d
                              case Fdd => h.(send := false)
                              case Tdd(config) =>
                                HarqStatus(2, false, if config == 1 then 0xff else h.vDaiDl,
                                           if config == 1 && j == r[|r| - 1] then 0xff else h.vDaiUl))
  {
    var r, after := UeSet(d, subframeTx), AfterReset(d, subframeTx, acks);
    assert forall k :: 0 <= k < |r| ==> r[k] in r;
    StatusMeans(d, subframeTx, after);
    CountSentPositive(after, r);
    assert d == Tdd(1) && r != [] ==> UlGrantSubframe(d, subframeTx) == r[|r| - 1];
  }
}
