/** Radio time: a frame is ten subframes, frame numbers wrap at 1024. */
module FrameTiming {

  datatype Duplex = Fdd | Tdd(config: nat)

  datatype Direction = Downlink | Uplink | Special | Unsupported

  const FRAMES := 1024

  /** Frame and subframe number of the t-th subframe of a run. */
  function FrameOf(t: nat): nat { t / 10 % FRAMES }

  function SubframeOf(t: nat): nat { t % 10 }

  function SubframeSelect(d: Duplex, subframe: nat): Direction
  {
    match d
    case Fdd => Downlink   // a dummy value: in FDD every subframe carries both directions
    case Tdd(config) =>
      if config == 1 then
        if subframe in {0, 4, 5, 9} then Downlink else if subframe in {2, 3, 7, 8} then Uplink else Special
      else if config == 3 then
        if subframe < 1 || subframe >= 5 then Downlink else if subframe > 1 then Uplink else Special
      else if config == 4 then
        if subframe < 1 || subframe >= 4 then Downlink else if subframe > 1 then Uplink else Special
      else if config == 5 then
        if subframe < 1 || subframe >= 3 then Downlink else if subframe > 1 then Uplink else Special
      else Unsupported
  }

  predicate IsUplink(d: Duplex, subframe: nat)
  {
    d.Fdd? || SubframeSelect(d, subframe) == Uplink
  }

  const NO_PID := 255   // the value that makes subframe2harq_pid stop the program

  /** The uplink HARQ process of a subframe; an illegal TDD subframe of configurations 3 to 5 gives subframe - 2 modulo 256. */
  function HarqPid(d: Duplex, frame: nat, subframe: nat): nat
  {
    match d
    case Fdd => (2 * frame + subframe) % 8
    case Tdd(config) =>
      if config == 1 then
        if subframe == 2 || subframe == 3 then subframe - 2
        else if subframe == 7 || subframe == 8 then subframe - 5
        else NO_PID
      else if config == 2 then
        if subframe == 2 || subframe == 7 then subframe / 7 else NO_PID
      else if config == 3 || config == 4 || config == 5 then (subframe - 2) % 256
      else NO_PID
  }

  /** In FDD the processes take turns, also across the wrap of the frame number. */
  lemma FddPidIsTimeModEight(t: nat)
    ensures HarqPid(Fdd, FrameOf(t), SubframeOf(t)) == t % 8
  {
    var q := t / 10;
    assert q == 1024 * (q / 1024) + q % 1024;
    assert t == 10 * q + t % 10;
    assert 2 * (q % 1024) + t % 10 == t - 8 * (q + 256 * (q / 1024));
    ModEight(t, q + 256 * (q / 1024));
  }

  /** The uplink subframes of one frame, in the order in which they come. */
  function UplinkSubframes(config: nat): seq<nat>
  {
    if config == 1 then [2, 3, 7, 8] else if config == 2 then [2, 7] else if config == 3 then [2, 3, 4] else if config == 4 then [2, 3] else [2]
  }

  /** In TDD configurations 1 to 5 the uplink subframes of a frame have the processes 0, 1, 2, .. in their order, so they are
      different, and a process has the same subframe in every frame. */
  lemma TddPidsInOrder(config: nat, frame: nat, subframe: nat, k: nat)
    requires 1 <= config <= 5 && subframe < 10
    ensures var r := UplinkSubframes(config);
            && (config != 2 ==> (IsUplink(Tdd(config), subframe) <==> subframe in r))
            && (k < |r| ==> (subframe == r[k] <==> HarqPid(Tdd(config), frame, subframe) == k))
  {
    var r := UplinkSubframes(config);
    assert r[0] == 2 && (config == 1 ==> r[1] == 3 && r[2] == 7 && r[3] == 8) && (config == 2 ==> r[1] == 7) && (config == 3 ==> r[1] == 3 && r[2] == 4);
  }

  lemma ModEight(t: int, k: int)
    ensures (t - 8 * k) % 8 == t % 8
  {
  }
}
