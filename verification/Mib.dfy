/** The broadcast information block: three bytes packed every fourth frame and kept for the three frames after it. */
module Mib {
  import opened Options

  datatype Resource = OneSixth | Half | One | Two

  datatype Config = Config(nRb: nat, extended: bool, resource: Resource)

  type Frame = x: bv16 | x < 1024

  function BandwidthBits(nRb: nat): bv8
  {
    match nRb
    case 6 => 0
    case 15 => 1
    case 25 => 2
    case 50 => 3
    case 75 => 4
    case 100 => 5
    case _ => 2
  }

  function ResourceBits(r: Resource): bv8
  {
    match r case OneSixth => 0 case Half => 1 case One => 2 case Two => 3
  }

  function DurationBit(extended: bool): bv8 { if extended then 1 else 0 }

  /* ---------- the routine ---------- */

  class Pbch {
    const pdu: array<bv8>

    constructor ()
      ensures pdu.Length == 3 && fresh(pdu)
    {
      pdu := new bv8[3];
    }

    /** The block of common_signal_procedures, run once a frame. */
    method FillPdu(c: Config, frame: Frame)
      requires pdu.Length == 3
      modifies pdu
      ensures pdu[..] == if frame & 3 == 0 then Packed(c, frame) else old(pdu[..])
    {
      if frame & 3 == 0 {
        pdu[2] := 0;
        pdu[2] := (pdu[2] & 0x1f) | (BandwidthBits(c.nRb) << 5);
        pdu[2] := (pdu[2] & 0xef) | ((DurationBit(c.extended) << 4) & 0x10);
        pdu[2] := (pdu[2] & 0xf3) | (ResourceBits(c.resource) << 2);
        pdu[2] := (pdu[2] & 0xfc) | (((frame >> 8) & 3) as bv8);
        pdu[1] := (frame & 0xfc) as bv8;
        pdu[0] := 0;
      }
    }
  }

  function Packed(c: Config, frame: Frame): (p: seq<bv8>)
  {
    [0, (frame & 0xfc) as bv8,
     (BandwidthBits(c.nRb) << 5) | (DurationBit(c.extended) << 4) | (ResourceBits(c.resource) << 2) | (((frame >> 8) & 3) as bv8)]
  }

  /* ---------- reading it back ---------- */

  /** The fields of the MasterInformationBlock in section 6.2.2 of TS 36.331, most significant bit first: bandwidth (3 bits),
      PHICH duration (1) and resource (2), the upper 8 bits of the frame number, 10 spare bits. */
  function Word(pdu: seq<bv8>): bv24
    requires |pdu| == 3
  {
    ((pdu[2] as bv24) << 16) | ((pdu[1] as bv24) << 8) | (pdu[0] as bv24)
  }

  datatype Info = Info(frame: bv16, nRb: Option<nat>, extended: bool, resource: Resource, spare: bv24)

  /** What a receiver reads that knows the two low bits of the frame number. */
  function Read(pdu: seq<bv8>, low: bv16): Info
    requires |pdu| == 3
  {
    ReadWord(Word(pdu), low)
  }

  function ReadWord(w: bv24, low: bv16): Info
  {
    Info((((w >> 10) & 0xff) as bv16 << 2) | low, BandwidthOf(w >> 21), (w >> 20) & 1 == 1, ResourceOf((w >> 18) & 3), w & 0x3ff)
  }

  function BandwidthOf(bits: bv24): Option<nat>
  {
    match bits
    case 0 => Some(6)
    case 1 => Some(15)
    case 2 => Some(25)
    case 3 => Some(50)
    case 4 => Some(75)
    case 5 => Some(100)
    case _ => None
  }

  function ResourceOf(bits: bv24): Resource
  {
    if bits == 0 then OneSixth else if bits == 1 then Half else if bits == 2 then One else Two
  }

  /** The bandwidth a receiver sees: anything but the six legal ones looks like 25 blocks. */
  function Shown(nRb: nat): nat
  {
    if nRb in {6, 15, 25, 50, 75, 100} then nRb else 25
  }

  lemma WordOfPacked(bw: bv8, dur: bv8, res: bv8, frame: Frame)
    requires bw <= 5 && dur <= 1 && res <= 3
    ensures var w := Word([0, (frame & 0xfc) as bv8, (bw << 5) | (dur << 4) | (res << 2) | (((frame >> 8) & 3) as bv8)]);
            && w >> 21 == bw as bv24 && (w >> 20) & 1 == dur as bv24 && (w >> 18) & 3 == res as bv24
            && ((w >> 10) & 0xff) as bv16 << 2 == frame & 0x3fc && w & 0x3ff == 0
  {
  }

  lemma ReadWordOfPacked(bw: bv8, dur: bv8, res: bv8, first: Frame, frame: Frame)
    requires bw <= 5 && dur <= 1 && res <= 3 && frame & 0x3fc == first & 0x3fc
    ensures Read([0, (first & 0xfc) as bv8, (bw << 5) | (dur << 4) | (res << 2) | (((first >> 8) & 3) as bv8)], frame & 3)
            == Info(frame, BandwidthOf(bw as bv24), dur as bv24 == 1, ResourceOf(res as bv24), 0)
  {
    WordOfPacked(bw, dur, res, first);
    JoinFrame(frame);
    hide Word, BandwidthOf, ResourceOf;
  }

  lemma JoinFrame(frame: Frame)
    ensures (frame & 0x3fc) | (frame & 3) == frame
  {
  }

  lemma CodesRoundTrip(c: Config)
    ensures BandwidthBits(c.nRb) <= 5 && DurationBit(c.extended) <= 1 && ResourceBits(c.resource) <= 3
    ensures BandwidthOf(BandwidthBits(c.nRb) as bv24) == Some(Shown(c.nRb))
    ensures ResourceOf(ResourceBits(c.resource) as bv24) == c.resource
    ensures DurationBit(c.extended) as bv24 == 1 <==> c.extended
  {
  }

  /** Packing and reading: with the low bits of any frame of the same four, everything comes back. */
  lemma ReadPacked(c: Config, first: Frame, frame: Frame)
    requires frame & 0x3fc == first & 0x3fc
    ensures Read(Packed(c, first), frame & 3) == Info(frame, Some(Shown(c.nRb)), c.extended, c.resource, 0)
  {
    CodesRoundTrip(c);
    hide Read, BandwidthBits, BandwidthOf, ResourceBits, ResourceOf, Shown, DurationBit;
    ReadWordOfPacked(BandwidthBits(c.nRb), DurationBit(c.extended), ResourceBits(c.resource), first, frame);
  }

  /* ---------- runs of consecutive frames ---------- */

  function Next(f: Frame): Frame { (f + 1) & 1023 }

  /** The n-th frame number after f, wrapping at 1024. */
  function FrameAt(f: Frame, n: nat): Frame
  {
    if n == 0 then f else Next(FrameAt(f, n - 1))
  }

  /** The retained bytes after n frames, from frame f on, with the configuration in force at each of them. */
  function PduAfter(f: Frame, configs: seq<Config>, init: seq<bv8>, n: nat): seq<bv8>
    requires n <= |configs|
  {
    if n == 0 then init
    else
      var last := FrameAt(f, n - 1);
      if last & 3 == 0 then Packed(configs[n - 1], last) else PduAfter(f, configs, init, n - 1)
  }

  lemma {:induction false} LowBits(f: Frame, n: nat)
    requires f & 3 == 0
    ensures FrameAt(f, n) & 3 == if n % 4 == 0 then 0 else if n % 4 == 1 then 1 else if n % 4 == 2 then 2 else 3
    ensures n > 0 && n % 4 != 0 ==> FrameAt(f, n) & 0x3fc == FrameAt(f, n - 1) & 0x3fc
  {
    if n > 0 {
      LowBits(f, n - 1);
      NextLow(FrameAt(f, n - 1));
      assert n % 4 == if (n - 1) % 4 == 3 then 0 else (n - 1) % 4 + 1;
    }
  }

  lemma NextLow(f: Frame)
    ensures Next(f) & 3 == (f + 1) & 3
    ensures f & 3 != 3 ==> Next(f) & 0x3fc == f & 0x3fc
  {
  }

  lemma Fours(k: nat)
    ensures k % 4 == 0 ==> k / 4 * 4 == k
    ensures k % 4 != 0 ==> k / 4 * 4 == (k - 1) / 4 * 4
  {
  }

  lemma {:induction false} RetainedSinceMultipleOfFour(f: Frame, configs: seq<Config>, init: seq<bv8>, n: nat)
    requires f & 3 == 0 && 1 <= n <= |configs|
    ensures var k := (n - 1) / 4 * 4;
            && PduAfter(f, configs, init, n) == Packed(configs[k], FrameAt(f, k))
            && FrameAt(f, n - 1) & 0x3fc == FrameAt(f, k) & 0x3fc
  {
    LowBits(f, n - 1);
    Fours(n - 1);
    hide FrameAt, Packed;
    var k := (n - 1) / 4 * 4;
    if (n - 1) % 4 == 0 {
      assert k == n - 1;
    } else {
      assert k == (n - 2) / 4 * 4;
      RetainedSinceMultipleOfFour(f, configs, init, n - 1);
    }
  }

  /** In every run of consecutive frames that starts at a multiple of four, what is broadcast with a frame gives that frame's
      number, and the bandwidth and PHICH configuration in force at the last multiple of four; the spare bits are 0. */
  lemma EveryFrameRecovered(f: Frame, configs: seq<Config>, init: seq<bv8>, n: nat)
    requires f & 3 == 0 && 1 <= n <= |configs| && |init| == 3
    ensures var frame, c := FrameAt(f, n - 1), configs[(n - 1) / 4 * 4];
            |PduAfter(f, configs, init, n)| == 3
            && Read(PduAfter(f, configs, init, n), frame & 3) == Info(frame, Some(Shown(c.nRb)), c.extended, c.resource, 0)
  {
    RetainedSinceMultipleOfFour(f, configs, init, n);
    var k := (n - 1) / 4 * 4;
    ReadPacked(configs[k], FrameAt(f, k), FrameAt(f, n - 1));
  }

  /** The bandwidth comes back exactly when it is one of the six legal ones. */
  lemma BandwidthExactly(c: Config, frame: Frame)
    ensures Read(Packed(c, frame), frame & 3).nRb == Some(c.nRb) <==> c.nRb in {6, 15, 25, 50, 75, 100}
  {
    ReadPacked(c, frame, frame);
  }
}
