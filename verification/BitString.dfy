/** Numbers out of ASN.1 bit strings: the 8-, 16-, 32- and 64-bit readers, with the arithmetic of the C operators written out. */
module BitString {
  import opened Options

  type Byte = x: nat | x < 256

  /** x * 2^k. */
  function Shl(x: nat, k: nat): nat
  {
    if k == 0 then x else 2 * Shl(x, k - 1)
  }

  /** floor(x / 2^k). */
  function Shr(x: nat, k: nat): nat
  {
    if k == 0 then x else Shr(x / 2, k - 1)
  }

  lemma {:induction false} ShrIsFloor(x: nat, k: nat)
    ensures Shl(Shr(x, k), k) <= x < Shl(Shr(x, k) + 1, k)
  {
    if k > 0 {
      ShrIsFloor(x / 2, k - 1);
    }
  }

  lemma {:induction false} ShlPlus(x: nat, y: nat, k: nat)
    ensures Shl(x + y, k) == Shl(x, k) + Shl(y, k)
  {
    if k > 0 {
      ShlPlus(x, y, k - 1);
    }
  }

  lemma {:induction false} ShlShl(x: nat, a: nat, b: nat)
    ensures Shl(Shl(x, a), b) == Shl(x, a + b)
  {
    if b > 0 {
      ShlShl(x, a, b - 1);
    }
  }

  lemma ShlByte(x: nat)
    ensures Shl(x, 8) == 256 * x
  {
    assert Shl(x, 1) == 2 * x;
    assert Shl(x, 2) == 4 * x;
    assert Shl(x, 3) == 8 * x;
    assert Shl(x, 4) == 16 * x;
    assert Shl(x, 5) == 32 * x;
    assert Shl(x, 6) == 64 * x;
    assert Shl(x, 7) == 128 * x;
  }

  lemma ShlBytes(x: nat)
    ensures Shl(x, 8) == 0x100 * x && Shl(x, 16) == 0x1_0000 * x && Shl(x, 24) == 0x100_0000 * x
    ensures Shl(x, 40) == 0x100_0000_0000 * x
  {
    ShlByte(x);
    ShlByte(0x100 * x);
    ShlByte(0x1_0000 * x);
    ShlByte(0x100_0000 * x);
    ShlByte(0x1_0000_0000 * x);
    ShlShl(x, 8, 8);
    ShlShl(x, 16, 8);
    ShlShl(x, 24, 8);
    ShlShl(x, 32, 8);
  }

  lemma {:induction false} ShlMono(x: nat, y: nat, k: nat)
    requires x < y
    ensures Shl(x, k) < Shl(y, k)
  {
    if k > 0 {
      ShlMono(x, y, k - 1);
    }
  }

  lemma {:induction false} ShlGrows(x: nat, a: nat, b: nat)
    requires a <= b
    ensures Shl(x, a) <= Shl(x, b)
  {
    if a < b {
      ShlGrows(x, a, b - 1);
    }
  }

  lemma {:induction false} ShrShl(x: nat, k: nat)
    ensures Shr(Shl(x, k), k) == x
  {
    if k > 0 {
      ShrShl(x, k - 1);
    }
  }

  /** Dropping u low bits of hi * 2^w + b, with b below 2^w. */
  lemma {:induction false} ShrSplit(hi: nat, b: nat, u: nat, w: nat)
    requires u <= w && b < Shl(1, w)
    ensures Shr(b, u) < Shl(1, w - u)
    ensures Shr(Shl(hi, w) + b, u) == Shl(hi, w - u) + Shr(b, u)
  {
    if u > 0 {
      ShrSplit(hi, b / 2, u - 1, w - 1);
      assert (Shl(hi, w) + b) / 2 == Shl(hi, w - 1) + b / 2;
    }
  }

  /** Bitwise or of nonnegative numbers. */
  function BitOr(a: nat, b: nat): nat
    decreases a + b
  {
    if a == 0 then b else if b == 0 then a
    else (if a % 2 == 1 || b % 2 == 1 then 1 else 0) + 2 * BitOr(a / 2, b / 2)
  }

  /** Or of a multiple of 2^k and a number below 2^k is their sum. */
  lemma {:induction false} OrIsSum(m: nat, k: nat, b: nat)
    requires b < Shl(1, k)
    ensures BitOr(Shl(m, k), b) == Shl(m, k) + b
  {
    if k > 0 {
      OrIsSum(m, k - 1, b / 2);
    }
  }

  /** Or lies between its operands and their sum. */
  lemma {:induction false} OrBetween(a: nat, b: nat)
    ensures a <= BitOr(a, b) <= a + b
    decreases a + b
  {
    if a > 0 && b > 0 {
      OrBetween(a / 2, b / 2);
    }
  }

  /* ---------- what a bit string means ---------- */

  /** The bytes and the number of unused bits at the end of the last one. */
  datatype Bits = Bits(buf: seq<Byte>, unused: nat)

  predicate Proper(a: Bits)
  {
    |a.buf| >= 1 && a.unused <= 7
  }

  function BigEndian(buf: seq<Byte>): nat
  {
    if buf == [] then 0 else 256 * BigEndian(buf[..|buf| - 1]) + buf[|buf| - 1]
  }

  function Value(a: Bits): nat
  {
    Shr(BigEndian(a.buf), a.unused)
  }

  /* ---------- the C operators ---------- */

  const TWO_31 := 0x8000_0000
  const TWO_32 := 0x1_0000_0000
  const TWO_64 := 0x1_0000_0000_0000_0000

  /** A byte shifted left as a 32-bit int and then converted to an unsigned type of 32 or 64 bits: the int wraps, and a
      negative int is extended with ones. None: the shift is not defined. */
  function Term(b: Byte, shift: nat, wide: bool): Option<nat>
  {
    if shift >= 32 then None
    else
      var x := Shl(b, shift) % TWO_32;
      Some(if wide && x >= TWO_31 then x + (TWO_64 - TWO_32) else x)
  }

  function ShiftAt(a: Bits, i: nat): int
  {
    8 * (|a.buf| - 1 - i) - a.unused
  }

  /** The accumulator after the first i bytes; None once a shift was not defined. */
  function Acc(a: Bits, wide: bool, i: nat): Option<nat>
    requires Proper(a) && i < |a.buf|
  {
    if i == 0 then Some(0)
    else
      match (Acc(a, wide, i - 1), Term(a.buf[i - 1], ShiftAt(a, i - 1), wide))
      case (Some(r), Some(t)) => Some(BitOr(r, t))
      case _ => None
  }

  function Result(a: Bits, wide: bool): Option<nat>
    requires Proper(a)
  {
    match Acc(a, wide, |a.buf| - 1)
    case None => None
    case Some(r) => Some(BitOr(r, Shr(a.buf[|a.buf| - 1], a.unused)))
  }

  /* ---------- the loops compute the value ---------- */

  /** The value of the first i bytes in the place they have in the result. */
  function Partial(a: Bits, i: nat): nat
    requires Proper(a) && i < |a.buf|
  {
    Shl(BigEndian(a.buf[..i]), ShiftAt(a, i) + 8)
  }

  lemma PartialStep(a: Bits, i: nat)
    requires Proper(a) && i + 1 < |a.buf|
    ensures Partial(a, i + 1) == Partial(a, i) + Shl(a.buf[i], ShiftAt(a, i))
    ensures Shl(a.buf[i], ShiftAt(a, i)) < Shl(1, ShiftAt(a, i) + 8)
  {
    var s, hi, b := ShiftAt(a, i), BigEndian(a.buf[..i]), a.buf[i];
    assert a.buf[..i + 1][..i] == a.buf[..i];
    ShlByte(hi);
    ShlByte(1);
    ShlPlus(256 * hi, b, s);
    ShlShl(hi, 8, s);
    ShlMono(b, 256, s);
    ShlShl(1, 8, s);
  }

  predicate TermExact(a: Bits, wide: bool, j: nat)
    requires Proper(a) && j + 1 < |a.buf|
  {
    Term(a.buf[j], ShiftAt(a, j), wide) == Some(Shl(a.buf[j], ShiftAt(a, j)))
  }

  lemma {:induction false} AccIsPartial(a: Bits, wide: bool, i: nat)
    requires Proper(a) && i < |a.buf| && forall j :: 0 <= j < i ==> TermExact(a, wide, j)
    ensures Acc(a, wide, i) == Some(Partial(a, i))
  {
    if i > 0 {
      AccIsPartial(a, wide, i - 1);
      PartialStep(a, i - 1);
      assert TermExact(a, wide, i - 1);
      OrIsSum(BigEndian(a.buf[..i - 1]), ShiftAt(a, i - 1) + 8, Shl(a.buf[i - 1], ShiftAt(a, i - 1)));
    } else {
      ShlZero(ShiftAt(a, 0) + 8);
    }
  }

  lemma {:induction false} ShlZero(k: nat)
    ensures Shl(0, k) == 0
  {
    if k > 0 {
      ShlZero(k - 1);
    }
  }

  lemma ValueOfParts(a: Bits)
    requires Proper(a)
    ensures var n := |a.buf| - 1; Value(a) == Partial(a, n) + Shr(a.buf[n], a.unused)
    ensures var n := |a.buf| - 1; BitOr(Partial(a, n), Shr(a.buf[n], a.unused)) == Value(a)
  {
    var n := |a.buf| - 1;
    var hi := BigEndian(a.buf[..n]);
    ShlByte(hi);
    ShlByte(1);
    ShrSplit(hi, a.buf[n], a.unused, 8);
    hide Shl, Shr, BitOr;
    OrIsSum(hi, 8 - a.unused, Shr(a.buf[n], a.unused));
  }

  lemma SmallTerm(b: Byte, shift: nat)
    ensures shift <= 23 ==> Shl(b, shift) < TWO_31
    ensures shift <= 24 ==> Shl(b, shift) < TWO_32
  {
    ShlBytes(256);
    assert Shl(256, 24) == 2 * Shl(256, 23);
    hide Shl;
    if shift <= 24 {
      ShlMono(b, 256, shift);
      ShlGrows(256, shift, if shift <= 23 then 23 else 24);
    }
  }

  /** The 32-bit loop computes the value, floor(big-endian number / 2^unused), for every string it accepts. */
  lemma NarrowIsValue(a: Bits)
    requires Proper(a) && |a.buf| <= 4
    ensures Result(a, false) == Some(Value(a))
  {
    forall j | 0 <= j < |a.buf| - 1
      ensures TermExact(a, false, j)
    {
      SmallTerm(a.buf[j], ShiftAt(a, j));
    }
    AccIsPartial(a, false, |a.buf| - 1);
    ValueOfParts(a);
  }

  /* ---------- the 64-bit loop ---------- */

  /** The first shifted byte is a nonnegative int. */
  predicate FitsInt(a: Bits)
    requires Proper(a)
  {
    |a.buf| == 1 || (ShiftAt(a, 0) <= 31 && Shl(a.buf[0], ShiftAt(a, 0)) < TWO_31)
  }

  lemma LaterTermsExact(a: Bits, j: nat)
    requires Proper(a) && 1 <= j && j + 1 < |a.buf| && ShiftAt(a, 0) <= 31
    ensures TermExact(a, true, j)
  {
    SmallTerm(a.buf[j], ShiftAt(a, j));
  }

  lemma {:induction false} UndefinedStays(a: Bits, i: nat)
    requires Proper(a) && 1 <= i < |a.buf| && ShiftAt(a, 0) >= 32
    ensures Acc(a, true, i) == None
  {
    if i > 1 {
      UndefinedStays(a, i - 1);
    }
  }

  /** A wrong first term t stays visible: the result lies between t and t plus what the other bytes add. */
  lemma {:induction false} WrongTermStays(a: Bits, t: nat, i: nat)
    requires Proper(a) && 1 <= i < |a.buf| && ShiftAt(a, 0) <= 31 && Term(a.buf[0], ShiftAt(a, 0), true) == Some(t)
    ensures Acc(a, true, i).Some? && Partial(a, i) >= Partial(a, 1)
    ensures t <= Acc(a, true, i).value <= t + (Partial(a, i) - Partial(a, 1))
  {
    if i > 1 {
      WrongTermStays(a, t, i - 1);
      LaterTermsExact(a, i - 1);
      PartialStep(a, i - 1);
      OrBetween(Acc(a, true, i - 1).value, Shl(a.buf[i - 1], ShiftAt(a, i - 1)));
    } else {
      assert Acc(a, true, 0) == Some(0);
    }
  }

  lemma {:induction false} BigEndianBound(buf: seq<Byte>)
    ensures BigEndian(buf) < Shl(1, 8 * |buf|)
  {
    if buf != [] {
      var n, hi := |buf| - 1, BigEndian(buf[..|buf| - 1]);
      BigEndianBound(buf[..n]);
      ShlShl(1, 8 * n, 8);
      ShlByte(Shl(1, 8 * n));
    }
  }

  lemma FirstPartial(a: Bits)
    requires Proper(a) && |a.buf| >= 2
    ensures Partial(a, 1) == Shl(a.buf[0], ShiftAt(a, 0))
  {
    PartialStep(a, 0);
    ShlZero(ShiftAt(a, 0) + 8);
  }

  lemma {:induction false} ShrAtMost(x: nat, k: nat)
    ensures Shr(x, k) <= x
  {
    if k > 0 {
      ShrAtMost(x / 2, k - 1);
    }
  }

  lemma ValueBelow40Bits(a: Bits)
    requires Proper(a) && |a.buf| >= 2 && ShiftAt(a, 0) <= 31
    ensures Value(a) < 0x100_0000_0000
  {
    ShlBytes(1);
    hide Shl;
    BigEndianBound(a.buf);
    ShlGrows(1, 8 * |a.buf|, 40);
    ShrAtMost(BigEndian(a.buf), a.unused);
  }

  lemma WideWrong(a: Bits)
    requires Proper(a) && |a.buf| <= 8 && !FitsInt(a)
    ensures Result(a, true) != Some(Value(a))
  {
    var n := |a.buf| - 1;
    if ShiftAt(a, 0) >= 32 {
      UndefinedStays(a, n);
    } else {
      var t := Term(a.buf[0], ShiftAt(a, 0), true).value;
      var q := Shr(a.buf[n], a.unused);
      WrongTermStays(a, t, n);
      FirstPartial(a);
      ValueOfParts(a);
      OrBetween(Acc(a, true, n).value, q);
      ValueBelow40Bits(a);
      hide Acc, BitOr, Shl, Shr, Partial, Value;
    }
  }

  /** The 64-bit loop computes the value exactly when the first shifted byte is a nonnegative int. */
  lemma WideIsValueExactly(a: Bits)
    requires Proper(a) && |a.buf| <= 8
    ensures Result(a, true) == Some(Value(a)) <==> FitsInt(a)
  {
    if FitsInt(a) {
      forall j | 0 <= j < |a.buf| - 1
        ensures TermExact(a, true, j)
      {
        if j > 0 {
          LaterTermsExact(a, j);
        }
      }
      AccIsPartial(a, true, |a.buf| - 1);
      ValueOfParts(a);
    } else {
      WideWrong(a);
    }
  }

  lemma {:induction false} LowBytesBelow(a: Bits, i: nat)
    requires Proper(a) && 1 <= i < |a.buf|
    ensures Partial(a, 1) <= Partial(a, i)
    ensures Partial(a, i) + Shl(1, ShiftAt(a, i) + 8) <= Partial(a, 1) + Shl(1, ShiftAt(a, 0))
  {
    if i > 1 {
      var s := ShiftAt(a, i - 1);
      var b: nat := a.buf[i - 1];
      LowBytesBelow(a, i - 1);
      PartialStep(a, i - 1);
      ShlPlus(b, 1, s);
      ShlByte(1);
      ShlShl(1, 8, s);
      if b + 1 < 256 {
        ShlMono(b + 1, 256, s);
      }
    }
  }

  lemma FirstByteBounds(a: Bits)
    requires Proper(a) && |a.buf| >= 2
    ensures Shl(a.buf[0], ShiftAt(a, 0)) <= Value(a) < Shl(a.buf[0] as nat + 1, ShiftAt(a, 0))
  {
    var n := |a.buf| - 1;
    LowBytesBelow(a, n);
    FirstPartial(a);
    ValueOfParts(a);
    ShlByte(1);
    ShrSplit(0, a.buf[n], a.unused, 8);
    ShlPlus(a.buf[0], 1, ShiftAt(a, 0));
    hide Shl, Shr, Value, Partial;
  }

  /** 2^31 is a multiple of 2^s. */
  lemma BelowTwo31(b: nat, s: nat)
    requires s <= 31
    ensures Shl(b, s) < TWO_31 <==> Shl(b + 1, s) <= TWO_31
  {
    var limit := Shl(1, 31 - s);
    ShlShl(1, 31 - s, s);
    ShlBytes(256);
    assert Shl(256, 24) == 2 * Shl(256, 23);
    ShlShl(1, 8, 23);
    ShlByte(1);
    hide Shl;
    if b + 1 < limit {
      ShlMono(b + 1, limit, s);
    } else if limit < b + 1 {
      ShlMono(limit, b + 1, s);
      if limit < b {
        ShlMono(limit, b, s);
      }
    }
    if b < limit {
      ShlMono(b, limit, s);
    }
  }

  /** Longer than one byte, the 64-bit reader is right exactly for at most 39 bits and values below 2^31. */
  lemma FitsIntByValue(a: Bits)
    requires Proper(a) && |a.buf| >= 2
    ensures FitsInt(a) <==> 8 * |a.buf| - a.unused <= 39 && Value(a) < TWO_31
  {
    if ShiftAt(a, 0) <= 31 {
      FirstByteBounds(a);
      BelowTwo31(a.buf[0], ShiftAt(a, 0));
      hide Shl, Value;
    }
  }

  /** For example, it fails on every five whole bytes, where a shift is not defined, and on four bytes FF 00 00 00, where the
      sign spreads into the upper half. */
  lemma WideFails(a: Bits)
    requires (|a.buf| == 5 && a.unused == 0) || a == Bits([0xFF, 0, 0, 0], 0)
    ensures Result(a, true) != Some(Value(a))
    ensures |a.buf| == 5 ==> Result(a, true) == None
  {
    if |a.buf| == 5 {
      UndefinedStays(a, 4);
    } else {
      ShlBytes(0xFF);
      WideIsValueExactly(a);
    }
  }

  /* ---------- the readers ---------- */

  function ToUint8(a: Bits): (r: nat)
    requires Proper(a) && |a.buf| == 1
    ensures r == Value(a)
  {
    assert BigEndian(a.buf[..0]) == 0;
    Shr(a.buf[0], a.unused)
  }

  method ToUint16(a: Bits) returns (r: nat)
    requires Proper(a) && |a.buf| <= 2
    ensures r == Value(a) && r < 0x1_0000
  {
    r := 0;
    var index := 0;
    if |a.buf| == 2 {
      SixteenBits(a);
      r := BitOr(r, Shl(a.buf[0], 8 - a.unused) % 0x1_0000);
      index := 1;
    } else {
      assert Partial(a, 0) == 0 by { ShlZero(ShiftAt(a, 0) + 8); }
    }
    ValueOfParts(a);
    ValueBelow(a);
    hide *;
    r := BitOr(r, Shr(a.buf[index], a.unused));
  }

  lemma ValueBelow(a: Bits)
    requires Proper(a) && |a.buf| <= 2
    ensures Value(a) < 0x1_0000
  {
    BigEndianBound(a.buf);
    ShrAtMost(BigEndian(a.buf), a.unused);
    ShlGrows(1, 8 * |a.buf|, 16);
    ShlBytes(1);
  }

  lemma SixteenBits(a: Bits)
    requires Proper(a) && |a.buf| == 2
    ensures Shl(a.buf[0], 8 - a.unused) < 0x1_0000 && Partial(a, 1) == Shl(a.buf[0], 8 - a.unused)
  {
    FirstPartial(a);
    ShlByte(256);
    ShlMono(a.buf[0], 256, 8 - a.unused);
    ShlGrows(256, 8 - a.unused, 8);
  }

  method ToUint32(a: Bits) returns (r: nat)
    requires Proper(a) && |a.buf| <= 4
    ensures r == Value(a)
  {
    NarrowIsValue(a);
    r := 0;
    var shift := 8 * (|a.buf| - 1) - a.unused;
    var index := 0;
    while index < |a.buf| - 1
      invariant 0 <= index <= |a.buf| - 1 && shift == ShiftAt(a, index)
      invariant Acc(a, false, index) == Some(r)
    {
      var t := Term(a.buf[index], shift, false);
      r := BitOr(r, t.value);
      shift := shift - 8;
      index := index + 1;
    }
    r := BitOr(r, Shr(a.buf[index], a.unused));
  }

  /** None: a shift was not defined. */
  method ToUint64(a: Bits) returns (r: Option<nat>)
    requires Proper(a) && |a.buf| <= 8
    ensures r == Some(Value(a)) <==> FitsInt(a)
  {
    r := Some(0);
    var shift := 8 * (|a.buf| - 1) - a.unused;
    var index := 0;
    while index < |a.buf| - 1
      invariant 0 <= index <= |a.buf| - 1 && shift == ShiftAt(a, index)
      invariant Acc(a, true, index) == r
    {
      var t := Term(a.buf[index], shift, true);
      r := if r.Some? && t.Some? then Some(BitOr(r.value, t.value)) else None;
      shift := shift - 8;
      index := index + 1;
    }
    if r.Some? {
      r := Some(BitOr(r.value, Shr(a.buf[index], a.unused)));
    }
    WideIsValueExactly(a);
  }

  /* ---------- round trip ---------- */

  function Bytes(x: nat, n: nat): (r: seq<Byte>)
    ensures |r| == n
  {
    if n == 0 then [] else Bytes(x / 256, n - 1) + [x % 256]
  }

  /** A number of the given width, left-aligned in bytes as ASN.1 wants it. */
  function Pack(v: nat, width: nat): (a: Bits)
    requires width >= 1
    ensures Proper(a) && 8 * |a.buf| - a.unused == width
  {
    var n := (width + 7) / 8;
    Bits(Bytes(Shl(v, 8 * n - width), n), 8 * n - width)
  }

  lemma {:induction false} BytesRoundTrip(x: nat, n: nat)
    requires x < Shl(1, 8 * n)
    ensures BigEndian(Bytes(x, n)) == x
  {
    if n > 0 {
      ShlShl(1, 8 * (n - 1), 8);
      ShlByte(Shl(1, 8 * (n - 1)));
      BytesRoundTrip(x / 256, n - 1);
      assert Bytes(x, n)[..n - 1] == Bytes(x / 256, n - 1);
    }
  }

  lemma PackedValue(v: nat, width: nat, n: nat, u: nat)
    requires 8 * n == width + u && v < Shl(1, width)
    ensures Shr(BigEndian(Bytes(Shl(v, u), n)), u) == v
  {
    hide Shl, Shr, Bytes, BigEndian;
    ShlMono(v, Shl(1, width), u);
    ShlShl(1, width, u);
    BytesRoundTrip(Shl(v, u), n);
    ShrShl(v, u);
  }

  /** Reading back what was packed gives the number, for every width. */
  lemma PackRoundTrip(v: nat, width: nat)
    requires width >= 1 && v < Shl(1, width)
    ensures Value(Pack(v, width)) == v
  {
    hide Shl, Shr, Bytes, BigEndian;
    var n := (width + 7) / 8;
    PackedValue(v, width, n, 8 * n - width);
  }
}
