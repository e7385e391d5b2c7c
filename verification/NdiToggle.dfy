/** New-data indicators of the phy-test transmitter in FDD: two toggle tables, one for even and one for odd subframes. */
module NdiToggle {
  import FrameTiming


  /** Frame and subframe number of a user's downlink grant. */
  datatype Time = Time(frame: nat, subframe: nat)

  datatype Grant = Grant(pid: nat, ndi: nat)

  datatype Tables = Tables(even: seq<nat>, odd: seq<nat>)

  predicate Bits(s: seq<nat>)
  {
    |s| == 8 && forall k :: 0 <= k < 8 ==> s[k] <= 1
  }

  predicate Sound(t: Tables) { Bits(t.even) && Bits(t.odd) }

  function Zeros(): (z: seq<nat>)
    ensures |z| == 8 && forall k :: 0 <= k < 8 ==> z[k] == 0
  {
    seq(8, _ => 0)
  }

  function Pid(t: Time): (p: nat)
    ensures p < 8
  {
    (10 * t.frame + t.subframe) % 8
  }

  /** The process number is that of the uplink side for the same subframe, and time modulo eight. */
  lemma PidIsTimeModEight(t: nat)
    ensures var now := Time(FrameTiming.FrameOf(t), FrameTiming.SubframeOf(t));
            Pid(now) == FrameTiming.HarqPid(FrameTiming.Fdd, now.frame, now.subframe) == t % 8
  {
    var frame, sf := FrameTiming.FrameOf(t), FrameTiming.SubframeOf(t);
    FrameTiming.ModEight(10 * frame + sf, frame);
    FrameTiming.FddPidIsTimeModEight(t);
  }

  /** The part of fill_dci that every bandwidth shares. */
  function Fill(s: Tables, t: Time): (r: (Tables, Grant))
    requires Sound(s)
    ensures Sound(r.0)
  {
    var pid := Pid(t);
    if t.subframe % 2 == 0 then (s.(even := s.even[pid := (s.even[pid] + 1) % 2]), Grant(pid, s.even[pid]))
    else (s.(odd := s.odd[pid := (s.odd[pid] + 1) % 2]), Grant(pid, s.odd[pid]))
  }

  class Toggles {
    const even: array<nat>
    const odd: array<nat>

    ghost function State(): Tables
      reads even, odd
    {
      Tables(even[..], odd[..])
    }

    ghost predicate Valid()
      reads even, odd
    {
      Sound(State()) && even != odd
    }

    constructor ()
      ensures Valid() && fresh(even) && fresh(odd) && State() == Tables(Zeros(), Zeros())
    {
      even := new nat[8](_ => 0);
      odd := new nat[8](_ => 0);
      new;
      assert even[..] == odd[..] == Zeros();
    }

    method FillDci(t: Time) returns (g: Grant)
      requires Valid()
      modifies even, odd
      ensures Valid() && (State(), g) == Fill(old(State()), t)
    {
      var pid := (10 * t.frame + t.subframe) % 8;
      var table := if t.subframe % 2 == 0 then even else odd;
      g := Grant(pid, table[pid]);
      table[pid] := (table[pid] + 1) % 2;
    }
  }

  /** The tables and grants after the first n grants of a run. */
  function Run(times: seq<Time>, n: nat): (r: (Tables, seq<Grant>))
    requires n <= |times|
    ensures Sound(r.0) && |r.1| == n
  {
    if n == 0 then (Tables(Zeros(), Zeros()), [])
    else
      var before := Run(times, n - 1);
      var (after, g) := Fill(before.0, times[n - 1]);
      (after, before.1 + [g])
  }

  /** Earlier grants of a process. */
  function Uses(times: seq<Time>, pid: nat, n: nat): nat
    requires n <= |times|
  {
    if n == 0 then 0 else Uses(times, pid, n - 1) + if Pid(times[n - 1]) == pid then 1 else 0
  }

  /** A process number and its subframe are both even or both odd. */
  lemma SameParity(t: Time)
    ensures Pid(t) % 2 == t.subframe % 2
  {
    var x := 10 * t.frame + t.subframe;
    assert x == 8 * (x / 8) + x % 8;
    assert t.subframe % 2 == Pid(t) % 2 by {
      assert t.subframe == 2 * (4 * (x / 8) - 5 * t.frame) + Pid(t);
    }
  }

  /** The toggle of a process in the table its subframes use, and its unused twin. */
  function Toggle(t: Tables, pid: nat): nat
    requires Sound(t) && pid < 8
  {
    if pid % 2 == 0 then t.even[pid] else t.odd[pid]
  }

  function Twin(t: Tables, pid: nat): nat
    requires Sound(t) && pid < 8
  {
    if pid % 2 == 0 then t.odd[pid] else t.even[pid]
  }

  lemma FillToggles(s: Tables, t: Time, pid: nat)
    requires Sound(s) && pid < 8
    ensures var (r, g) := Fill(s, t);
            && g == Grant(Pid(t), Toggle(s, Pid(t)))
            && Toggle(r, pid) == (if pid == Pid(t) then (Toggle(s, pid) + 1) % 2 else Toggle(s, pid))
            && Twin(r, pid) == Twin(s, pid)
  {
    SameParity(t);
    hide Pid;
  }

  /** The two tables behave as one toggle per process that counts its grants; half of each table is never written. */
  lemma {:induction false} OneTogglePerProcess(times: seq<Time>, n: nat, pid: nat)
    requires n <= |times| && pid < 8
    ensures Toggle(Run(times, n).0, pid) == Uses(times, pid, n) % 2 && Twin(Run(times, n).0, pid) == 0
  {
    if n == 0 {
      assert Toggle(Tables(Zeros(), Zeros()), pid) == Twin(Tables(Zeros(), Zeros()), pid) == 0;
    } else {
      OneTogglePerProcess(times, n - 1, pid);
      FillToggles(Run(times, n - 1).0, times[n - 1], pid);
    }
    hide Fill, Toggle, Twin, Pid;
  }

  /** The indicator of a grant is the number of earlier grants of its process, modulo 2. */
  lemma {:induction false} IndicatorCounts(times: seq<Time>, n: nat, i: nat)
    requires i < n <= |times|
    ensures Run(times, n).1[i] == Grant(Pid(times[i]), Uses(times, Pid(times[i]), i) % 2)
  {
    if i == n - 1 {
      OneTogglePerProcess(times, i, Pid(times[i]));
      FillToggles(Run(times, i).0, times[i], 0);
    } else {
      IndicatorCounts(times, n - 1, i);
    }
  }

  lemma {:induction false} NoUsesBetween(times: seq<Time>, pid: nat, i: nat, j: nat)
    requires i <= j <= |times| && forall k :: i <= k < j ==> Pid(times[k]) != pid
    ensures Uses(times, pid, j) == Uses(times, pid, i)
    decreases j
  {
    if i < j {
      NoUsesBetween(times, pid, i, j - 1);
    }
  }

  /** In every run of grants, whenever they are, successive grants of one process carry opposite indicators. */
  lemma {:induction false} SuccessiveGrantsToggle(times: seq<Time>, i: nat, j: nat)
    requires i < j < |times| && Pid(times[i]) == Pid(times[j])
    requires forall k :: i < k < j ==> Pid(times[k]) != Pid(times[i])
    ensures var gs := Run(times, |times|).1;
            gs[i].pid == gs[j].pid && gs[i].ndi + gs[j].ndi == 1
  {
    var pid := Pid(times[i]);
    assert Uses(times, pid, i + 1) == Uses(times, pid, i) + 1;
    hide Pid, Uses, Run;
    IndicatorCounts(times, |times|, i);
    IndicatorCounts(times, |times|, j);
    NoUsesBetween(times, pid, i + 1, j);
  }
}
