/** When a user may send a scheduling request (SR) or a sounding signal (SRS): both recur with a fixed period and offset,
    looked up from a configuration index. */
module Occasions {
  import opened Options
  import opened FrameTiming

  /** Indices from base on, one per offset, share a period. */
  datatype Row = Row(base: nat, period: nat)

  datatype Position = Position(period: nat, offset: nat)

  /** Table 10.1-5 of TS 36.213. */
  const SR_ROWS := [Row(0, 5), Row(5, 10), Row(15, 20), Row(35, 40), Row(75, 80)]

  /** Tables 8.2-1 (FDD) and 8.2-2 (TDD, without the 2 ms rows) of TS 36.213. */
  function SrsRows(fdd: bool): seq<Row>
  {
    if fdd then
      [Row(0, 2), Row(2, 5), Row(7, 10), Row(17, 20), Row(37, 40), Row(77, 80), Row(157, 160), Row(317, 320)]
    else [Row(10, 5), Row(15, 10), Row(25, 20), Row(45, 40), Row(85, 80), Row(165, 160), Row(325, 320)]
  }

  function Lookup(rows: seq<Row>, index: nat): Option<Position>
  {
    if rows == [] then None
    else if rows[0].base <= index < rows[0].base + rows[0].period then Some(Position(rows[0].period, index - rows[0].base))
    else Lookup(rows[1..], index)
  }

  /** The test for an SR opportunity, as the receiver computes it from the wrapping frame number. */
  predicate IsSrSubframe(index: nat, frame: nat, subframe: nat)
  {
    if index <= 4 then subframe % 5 == index
    else if index <= 14 then subframe == index - 5
    else if index <= 34 then 10 * (frame % 2) + subframe == index - 15
    else if index <= 74 then 10 * (frame % 4) + subframe == index - 35
    else if index <= 154 then 10 * (frame % 8) + subframe == index - 75
    else false
  }

  predicate IsSrsSubframe(p: Position, frame: nat, subframe: nat)
  {
    Hits(p, 10 * frame + subframe)
  }

  /** Time t is congruent to the offset. */
  predicate Hits(p: Position, t: nat)
  {
    p.period > 0 && t % p.period == p.offset
  }

  /* ---------- the tables ---------- */

  /** Rows follow one another without gaps and double their period, or more. */
  predicate Contiguous(rows: seq<Row>)
  {
    forall k :: 0 <= k < |rows| - 1 ==>
      rows[k + 1].base == rows[k].base + rows[k].period && rows[k].period < rows[k + 1].period
  }

  lemma {:induction false} RowOf(rows: seq<Row>, index: nat) returns (k: nat)
    requires Contiguous(rows) && Lookup(rows, index).Some?
    ensures k < |rows| && rows[k].base <= index < rows[k].base + rows[k].period
    ensures Lookup(rows, index) == Some(Position(rows[k].period, index - rows[k].base))
  {
    if rows[0].base <= index < rows[0].base + rows[0].period {
      k := 0;
    } else {
      var j := RowOf(rows[1..], index);
      k := j + 1;
    }
  }

  lemma {:induction false} PeriodsGrow(rows: seq<Row>, j: nat, k: nat)
    requires Contiguous(rows) && j < k < |rows|
    ensures rows[j].period < rows[k].period
  {
    if j + 1 < k {
      PeriodsGrow(rows, j, k - 1);
    }
  }

  /** A position is a proper offset, and no two indices share a position. */
  lemma LookupInjective(rows: seq<Row>, i: nat, j: nat)
    requires Contiguous(rows) && Lookup(rows, i).Some?
    ensures Lookup(rows, i).value.offset < Lookup(rows, i).value.period
    ensures Lookup(rows, i) == Lookup(rows, j) ==> i == j
  {
    var a := RowOf(rows, i);
    if Lookup(rows, i) == Lookup(rows, j) {
      var b := RowOf(rows, j);
      if a < b {
        PeriodsGrow(rows, a, b);
      } else if b < a {
        PeriodsGrow(rows, b, a);
      }
    }
  }

  /* ---------- the routine ---------- */

  /** compute_srs_pos; None where it stops the program. */
  method ComputeSrsPos(fdd: bool, isrs: nat) returns (r: Option<Position>)
    ensures r == Lookup(SrsRows(fdd), isrs)
  {
    TablesCover(isrs);
    r := None;
    if !fdd {
      if isrs < 10 { return None; }
      if isrs > 9 && isrs < 15 { r := Some(Position(5, isrs - 10)); RowFound(SrsRows(fdd), 0, isrs); }
      if isrs > 14 && isrs < 25 { r := Some(Position(10, isrs - 15)); RowFound(SrsRows(fdd), 1, isrs); }
      if isrs > 24 && isrs < 45 { r := Some(Position(20, isrs - 25)); RowFound(SrsRows(fdd), 2, isrs); }
      if isrs > 44 && isrs < 85 { r := Some(Position(40, isrs - 45)); RowFound(SrsRows(fdd), 3, isrs); }
      if isrs > 84 && isrs < 165 { r := Some(Position(80, isrs - 85)); RowFound(SrsRows(fdd), 4, isrs); }
      if isrs > 164 && isrs < 325 { r := Some(Position(160, isrs - 165)); RowFound(SrsRows(fdd), 5, isrs); }
      if isrs > 324 && isrs < 645 { r := Some(Position(320, isrs - 325)); RowFound(SrsRows(fdd), 6, isrs); }
      if isrs > 644 { return None; }
    } else {
      if isrs < 2 { r := Some(Position(2, isrs)); RowFound(SrsRows(fdd), 0, isrs); }
      if isrs > 1 && isrs < 7 { r := Some(Position(5, isrs - 2)); RowFound(SrsRows(fdd), 1, isrs); }
      if isrs > 6 && isrs < 17 { r := Some(Position(10, isrs - 7)); RowFound(SrsRows(fdd), 2, isrs); }
      if isrs > 16 && isrs < 37 { r := Some(Position(20, isrs - 17)); RowFound(SrsRows(fdd), 3, isrs); }
      if isrs > 36 && isrs < 77 { r := Some(Position(40, isrs - 37)); RowFound(SrsRows(fdd), 4, isrs); }
      if isrs > 76 && isrs < 157 { r := Some(Position(80, isrs - 77)); RowFound(SrsRows(fdd), 5, isrs); }
      if isrs > 156 && isrs < 317 { r := Some(Position(160, isrs - 157)); RowFound(SrsRows(fdd), 6, isrs); }
      if isrs > 316 && isrs < 637 { r := Some(Position(320, isrs - 317)); RowFound(SrsRows(fdd), 7, isrs); }
      if isrs > 636 { return None; }
    }
  }

  predicate Usual(period: nat)
  {
    period in {2, 5, 10, 20, 40, 80, 160, 320}
  }

  lemma {:induction false} RowFound(rows: seq<Row>, k: nat, index: nat)
    requires Contiguous(rows) && k < |rows| && rows[k].base <= index < rows[k].base + rows[k].period
    ensures Lookup(rows, index) == Some(Position(rows[k].period, index - rows[k].base))
  {
    if k > 0 {
      BasesGrow(rows, 0, k);
      RowFound(rows[1..], k - 1, index);
    }
  }

  lemma {:induction false} BasesGrow(rows: seq<Row>, j: nat, k: nat)
    requires Contiguous(rows) && j < k < |rows|
    ensures rows[j].base + rows[j].period <= rows[k].base
  {
    if j + 1 < k {
      BasesGrow(rows, j, k - 1);
    }
  }

  lemma {:induction false} LookupCovers(rows: seq<Row>, index: nat)
    requires Contiguous(rows) && rows != []
    ensures Lookup(rows, index).Some? <==> rows[0].base <= index < rows[|rows| - 1].base + rows[|rows| - 1].period
  {
    if |rows| > 1 {
      LookupCovers(rows[1..], index);
      BasesGrow(rows, 0, |rows| - 1);
    }
  }

  lemma SrsContiguous(fdd: bool)
    ensures Contiguous(SrsRows(fdd))
  {
    var rows := SrsRows(fdd);
    assert rows[1] == if fdd then Row(2, 5) else Row(15, 10);
    assert rows[2] == if fdd then Row(7, 10) else Row(25, 20);
    assert rows[3] == if fdd then Row(17, 20) else Row(45, 40);
    assert rows[4] == if fdd then Row(37, 40) else Row(85, 80);
    assert rows[5] == if fdd then Row(77, 80) else Row(165, 160);
    assert rows[6] == if fdd then Row(157, 160) else Row(325, 320);
    assert fdd ==> rows[7] == Row(317, 320);
    hide SrsRows;
  }

  /** The three tables are contiguous and cover [0, 155), [0, 637) and [10, 645). */
  lemma TablesCover(index: nat)
    ensures Contiguous(SR_ROWS) && Contiguous(SrsRows(true)) && Contiguous(SrsRows(false))
    ensures Lookup(SR_ROWS, index).Some? <==> index < 155
    ensures Lookup(SrsRows(true), index).Some? <==> index < 637
    ensures Lookup(SrsRows(false), index).Some? <==> 10 <= index < 645
  {
    SrsContiguous(true);
    SrsContiguous(false);
    assert Contiguous(SR_ROWS);
    hide Contiguous, Lookup;
    LookupCovers(SR_ROWS, index);
    LookupCovers(SrsRows(true), index);
    LookupCovers(SrsRows(false), index);
  }

  lemma LookupUsual(rows: seq<Row>, index: nat)
    requires rows == SR_ROWS || rows == SrsRows(true) || rows == SrsRows(false)
    requires Lookup(rows, index).Some?
    ensures Usual(Lookup(rows, index).value.period)
    ensures Lookup(rows, index).value.offset < Lookup(rows, index).value.period
  {
    TablesCover(index);
    LookupInjective(rows, index, index);
    var k := RowOf(rows, index);
    if rows == SrsRows(true) || rows == SrsRows(false) {
      assert Usual(rows[k].period);
    }
  }

  /* ---------- opportunities in time ---------- */

  lemma Multiple(p: nat, c: nat)
    requires c >= 1
    ensures p * c >= p
  {
    assert p * c == p * (c - 1) + p;
  }

  lemma SmallMultiple(p: nat, c: int)
    requires p * c < p && p * (-c) < p
    ensures c == 0
  {
    if c >= 1 {
      Multiple(p, c);
    } else if c <= -1 {
      Multiple(p, -c);
    }
  }

  lemma ModOf(p: nat, q: int, o: nat)
    requires o < p
    ensures (p * q + o) % p == o
  {
    var x := p * q + o;
    var r, h := x % p, x / p;
    assert x == p * h + r;
    assert p * (h - q) == p * h - p * q && p * (q - h) == p * q - p * h;
    SmallMultiple(p, h - q);
  }

  lemma Shift(x: int, k: int, p: nat)
    requires p > 0
    ensures (x + p * k) % p == x % p
  {
    var q, r := x / p, x % p;
    assert x == p * q + r;
    assert x + p * k == p * (q + k) + r;
    ModOf(p, q + k, r);
  }

  /** Every period divides the period of the frame numbers, so the wrap does not disturb it. */
  lemma WrapHarmless(t: nat, p: nat)
    requires Usual(p)
    ensures (10 * FrameOf(t) + SubframeOf(t)) % p == t % p
  {
    var q := t / 10;
    assert q == 1024 * (q / 1024) + q % 1024;
    assert 10 * FrameOf(t) + SubframeOf(t) == t - 10240 * (q / 1024);
    var k := 10240 / p;
    assert 10240 == p * k;
    assert t == 10 * FrameOf(t) + SubframeOf(t) + p * (k * (q / 1024)) by {
      assert p * (k * (q / 1024)) == (p * k) * (q / 1024);
    }
    Shift(10 * FrameOf(t) + SubframeOf(t), k * (q / 1024), p);
  }

  lemma SrArithmetic(f: nat, sf: nat)
    requires sf < 10
    ensures (10 * f + sf) % 5 == sf % 5 && (10 * f + sf) % 10 == sf && (10 * f + sf) % 20 == 10 * (f % 2) + sf
    ensures (10 * f + sf) % 40 == 10 * (f % 4) + sf && (10 * f + sf) % 80 == 10 * (f % 8) + sf
  {
    Shift(sf, 2 * f, 5);
    Shift(sf, f, 10);
    Shift(10 * (f % 2) + sf, f / 2, 20);
    Shift(10 * (f % 4) + sf, f / 4, 40);
    Shift(10 * (f % 8) + sf, f / 8, 80);
  }

  lemma SrRow(index: nat)
    requires index < 155
    ensures Lookup(SR_ROWS, index) == Some(
              if index <= 4 then Position(5, index)
              else if index <= 14 then Position(10, index - 5)
              else if index <= 34 then Position(20, index - 15)
              else if index <= 74 then Position(40, index - 35)
              else Position(80, index - 75))
  {
    hide Lookup;
    RowFound(SR_ROWS, if index <= 4 then 0 else if index <= 14 then 1 else if index <= 34 then 2 else if index <= 74 then 3 else 4,
             index);
  }

  /** A scheduling request may be sent exactly at the times congruent to the offset, for all time, and never with an index
      outside the table. */
  lemma SrExactly(index: nat, t: nat)
    ensures IsSrSubframe(index, FrameOf(t), SubframeOf(t)) <==>
            Lookup(SR_ROWS, index).Some? && Hits(Lookup(SR_ROWS, index).value, t)
  {
    hide Lookup;
    TablesCover(index);
    if index < 155 {
      SrRow(index);
      SrArithmetic(FrameOf(t), SubframeOf(t));
      WrapHarmless(t, Lookup(SR_ROWS, index).value.period);
    }
  }

  lemma SrsExactly(fdd: bool, isrs: nat, t: nat)
    requires Lookup(SrsRows(fdd), isrs).Some?
    ensures var p := Lookup(SrsRows(fdd), isrs).value;
            IsSrsSubframe(p, FrameOf(t), SubframeOf(t)) <==> Hits(p, t)
  {
    LookupUsual(SrsRows(fdd), isrs);
    WrapHarmless(t, Lookup(SrsRows(fdd), isrs).value.period);
  }

  lemma SameQuotient(p: nat, a: int, b: int)
    requires p * a < p * b + p && p * b < p * a + p
    ensures a == b
  {
    assert p * (a - b) == p * a - p * b && p * (-(a - b)) == p * b - p * a;
    SmallMultiple(p, a - b);
  }

  /** The opportunity at or after a time. */
  function NextOpportunity(p: Position, t: nat): (n: nat)
    requires Usual(p.period) && p.offset < p.period
    ensures t <= n < t + p.period && Hits(p, n)
  {
    var q := t / p.period + if p.offset >= t % p.period then 0 else 1;
    ModOf(p.period, q, p.offset);
    assert p.period * (t / p.period + 1) == p.period * (t / p.period) + p.period;
    p.period * q + p.offset
  }

  lemma OnlyOpportunity(p: Position, t: nat, u: nat)
    requires Usual(p.period) && p.offset < p.period && t <= u < t + p.period && Hits(p, u)
    ensures u == NextOpportunity(p, t)
  {
    var n := NextOpportunity(p, t);
    hide NextOpportunity;
    SameQuotient(p.period, u / p.period, n / p.period);
  }

  /** Every window of one period holds exactly one opportunity, wherever it starts and also across the frame wrap. */
  lemma SrsOncePerWindow(fdd: bool, isrs: nat, t: nat, u: nat)
    requires Lookup(SrsRows(fdd), isrs).Some?
    ensures var p := Lookup(SrsRows(fdd), isrs).value;
            && Usual(p.period) && p.offset < p.period
            && (t <= u < t + p.period ==> (IsSrsSubframe(p, FrameOf(u), SubframeOf(u)) <==> u == NextOpportunity(p, t)))
  {
    LookupUsual(SrsRows(fdd), isrs);
    var p := Lookup(SrsRows(fdd), isrs).value;
    SrsExactly(fdd, isrs, u);
    if t <= u < t + p.period && Hits(p, u) {
      OnlyOpportunity(p, t, u);
    }
  }

  lemma SrOncePerWindow(index: nat, t: nat, u: nat)
    requires index < 155
    ensures Lookup(SR_ROWS, index).Some?
    ensures var p := Lookup(SR_ROWS, index).value;
            && Usual(p.period) && p.offset < p.period
            && (t <= u < t + p.period ==> (IsSrSubframe(index, FrameOf(u), SubframeOf(u)) <==> u == NextOpportunity(p, t)))
  {
    SrRow(index);
    LookupUsual(SR_ROWS, index);
    var p := Lookup(SR_ROWS, index).value;
    SrExactly(index, u);
    hide IsSrSubframe, Lookup;
    if t <= u < t + p.period && Hits(p, u) {
      OnlyOpportunity(p, t, u);
    }
  }
}
