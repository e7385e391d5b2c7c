/** What travels on the two pipes of the background process: native 32-bit integers and C strings. */
module PipeCodec {

  type Byte = b: int | 0 <= b < 256

  const TWO32 := 0x1_0000_0000

  predicate IsInt32(v: int) { -0x8000_0000 <= v < 0x8000_0000 }

  /** The n low bytes of u, least significant first, and back. */
  function Digits(u: nat, n: nat): (r: seq<Byte>)
    ensures |r| == n
  {
    if n == 0 then [] else [u % 0x100] + Digits(u / 0x100, n - 1)
  }

  function Value(b: seq<Byte>): nat
  {
    if b == [] then 0 else b[0] as int + 0x100 * Value(b[1..])
  }

  function Pow256(n: nat): nat
  {
    if n == 0 then 1 else 0x100 * Pow256(n - 1)
  }

  lemma {:induction false} DigitsRoundTrip(u: nat, n: nat)
    requires u < Pow256(n)
    ensures Value(Digits(u, n)) == u
  {
    if n > 0 {
      DigitsRoundTrip(u / 0x100, n - 1);
      assert Digits(u, n)[1..] == Digits(u / 0x100, n - 1);
    }
  }

  /** The bytes of an `int` in memory: two's complement, least significant first. */
  function EncodeInt(v: int): (r: seq<Byte>)
    ensures |r| == 4
  {
    Digits(v % TWO32, 4)
  }

  function DecodeInt(b: seq<Byte>): int
    requires |b| == 4
  {
    var u := Value(b);
    if u < 0x8000_0000 then u else u - TWO32
  }

  lemma IntRoundTrip(v: int)
    requires IsInt32(v)
    ensures DecodeInt(EncodeInt(v)) == v
  {
    assert Pow256(4) == 0x100 * (0x100 * (0x100 * (0x100 * Pow256(0))));
    DigitsRoundTrip(v % TWO32, 4);
  }

  /** The C string at the start of a buffer: everything before the first NUL. */
  function CString(buffer: seq<Byte>): seq<Byte>
  {
    if buffer == [] || buffer[0] == 0 then [] else [buffer[0]] + CString(buffer[1..])
  }

  predicate NoNul(s: seq<Byte>) { forall k :: 0 <= k < |s| ==> s[k] != 0 }

  lemma {:induction false} CStringOfTerminated(s: seq<Byte>)
    requires NoNul(s)
    ensures CString(s + [0]) == s
  {
    if s != [] {
      CStringOfTerminated(s[1..]);
      assert (s + [0])[1..] == s[1..] + [0];
      assert (s + [0])[0] == s[0];
    } else {
      assert s + [0] == [0];
    }
  }

  /** What becomes of a command: it exits, a signal ends it, or there was no process to run it. */
  datatype Outcome = Exited(code: nat) | Killed(signal: nat, core: bool) | NoChild

  predicate ValidOutcome(o: Outcome)
  {
    match o
    case Exited(code) => code < 0x100
    case Killed(signal, _) => 1 <= signal < 0x7f
    case NoChild => true
  }

  /** The wait status `system` returns for it: the exit code in the second byte, or the signal in the low seven bits with the
      core flag above them. */
  function WaitStatus(o: Outcome): (raw: int)
    ensures ValidOutcome(o) ==> IsInt32(raw)
  {
    match o
    case Exited(code) => 0x100 * code
    case Killed(signal, core) => signal + if core then 0x80 else 0
    case NoChild => -1
  }

  /** WIFEXITED and WEXITSTATUS. */
  predicate IfExited(raw: int) { raw % 0x80 == 0 }

  function ExitStatus(raw: int): int { raw / 0x100 % 0x100 }

  function ReturnValue(raw: int): int
  {
    if raw == -1 || !IfExited(raw) || ExitStatus(raw) != 0 then -1 else 0
  }

  /** The caller is told 0 if and only if the command exited with code 0, and -1 otherwise. */
  lemma ReturnValueExactly(o: Outcome)
    requires ValidOutcome(o)
    ensures ReturnValue(WaitStatus(o)) == if o == Exited(0) then 0 else -1
  {
    match o
    case Exited(code) => assert 0x100 * code / 0x100 == code && 0x100 * code == 0x80 * (2 * code);
    case Killed(signal, core) => assert WaitStatus(o) % 0x80 == signal;
    case NoChild =>
  }

  /** One end writes, the other reads, bytes come out in the order they went in. */
  class Pipe {
    var bytes: seq<Byte>

    constructor ()
      ensures bytes == []
    {
      bytes := [];
    }

    /** The loop of `write_pipe`: the kernel takes as much as it likes each time. */
    method WritePipe(b: array<Byte>, size: nat)
      requires size <= b.Length
      modifies this
      ensures bytes == old(bytes) + b[..size]
    {
      var done, left := 0, size;
      while left != 0
        invariant done + left == size
        invariant bytes == old(bytes) + b[..done]
      {
        var ret :| 1 <= ret <= left;
        bytes := bytes + b[done..done + ret];
        done := done + ret;
        left := left - ret;
      }
    }

    /** The loop of `read_pipe`, with everything it waits for already in the pipe. */
    method ReadPipe(b: array<Byte>, size: nat)
      requires size <= b.Length && size <= |bytes|
      modifies this, b
      ensures bytes == old(bytes)[size..]
      ensures forall k :: 0 <= k < b.Length ==> b[k] == if k < size then old(bytes)[k] else old(b[k])
    {
      ghost var was := bytes;
      var done, left := 0, size;
      while left != 0
        invariant done + left == size
        invariant bytes == was[done..]
        invariant forall k :: 0 <= k < b.Length ==> b[k] == if k < done then was[k] else old(b[k])
      {
        var ret :| 1 <= ret <= left;
        var chunk := bytes[..ret];
        forall k | 0 <= k < ret {
          b[done + k] := chunk[k];
        }
        bytes := bytes[ret..];
        assert bytes == was[done + ret..];
        done := done + ret;
        left := left - ret;
      }
    }
  }
}
