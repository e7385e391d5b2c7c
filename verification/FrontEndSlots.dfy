/** The front-end processing of one subframe: 7.5 kHz removal and one FFT per symbol, slot by slot.
    A slot operation is left uninterpreted: a log records which operation ran on which slot. */
module FrontEndSlots {

  datatype SlotOp = RemoveHalfShift | SymbolFft(l: nat)

  datatype SlotAct = SlotAct(slot: nat, op: SlotOp)

  /** What has to happen to a slot, in order: the 7.5 kHz removal, then one FFT per symbol. */
  function OpAt(k: nat): SlotOp
  {
    if k == 0 then RemoveHalfShift else SymbolFft(k - 1)
  }

  function FirstOps(n: nat): (r: seq<SlotOp>)
    ensures |r| == n
  {
    if n == 0 then [] else FirstOps(n - 1) + [OpAt(n - 1)]
  }

  function Program(symbols: nat): seq<SlotOp>
  {
    FirstOps(symbols + 1)
  }

  function SlotIndex(slot: nat, subframe: nat): nat
  {
    slot % 2 + 2 * subframe
  }

  /** The operations of a log that touch one slot. */
  function Project(log: seq<SlotAct>, slot: nat): seq<SlotOp>
  {
    if log == [] then []
    else
      var rest := Project(log[..|log| - 1], slot);
      if log[|log| - 1].slot == slot then rest + [log[|log| - 1].op] else rest
  }

  /** The meaning of a log on a store of slots, for any meaning `f` of the operations. */
  function Exec<T>(f: (SlotOp, T) -> T, store: seq<T>, log: seq<SlotAct>): (r: seq<T>)
    ensures |r| == |store|
  {
    if log == [] then store
    else
      var before := Exec(f, store, log[..|log| - 1]);
      var last := log[|log| - 1];
      if last.slot < |store| then before[last.slot := f(last.op, before[last.slot])] else before
  }

  function ExecSlot<T>(f: (SlotOp, T) -> T, x: T, ops: seq<SlotOp>): T
  {
    if ops == [] then x else f(ops[|ops| - 1], ExecSlot(f, x, ops[..|ops| - 1]))
  }

  lemma {:induction false} ExecByProjection<T>(f: (SlotOp, T) -> T, store: seq<T>, log: seq<SlotAct>, slot: nat)
    requires slot < |store|
    ensures Exec(f, store, log)[slot] == ExecSlot(f, store[slot], Project(log, slot))
  {
    if log != [] {
      var init := log[..|log| - 1];
      ExecByProjection(f, store, init, slot);
      var rest := Project(init, slot);
      var op := log[|log| - 1].op;
      assert (rest + [op])[..|rest + [op]| - 1] == rest;
    }
  }

  /** Operations on different slots commute: logs that agree slot by slot mean the same. */
  lemma SameProjectionsSameMeaning<T>(f: (SlotOp, T) -> T, store: seq<T>, log1: seq<SlotAct>, log2: seq<SlotAct>)
    requires forall slot: nat :: Project(log1, slot) == Project(log2, slot)
    ensures Exec(f, store, log1) == Exec(f, store, log2)
  {
    var r1, r2 := Exec(f, store, log1), Exec(f, store, log2);
    forall slot: nat | slot < |store|
      ensures r1[slot] == r2[slot]
    {
      ExecByProjection(f, store, log1, slot);
      ExecByProjection(f, store, log2, slot);
    }
  }

  lemma {:induction false} ProjectConcat(log1: seq<SlotAct>, log2: seq<SlotAct>, slot: nat)
    ensures Project(log1 + log2, slot) == Project(log1, slot) + Project(log2, slot)
  {
    if log2 == [] {
      assert log1 + log2 == log1;
    } else {
      ProjectConcat(log1, log2[..|log2| - 1], slot);
      assert (log1 + log2)[..|log1 + log2| - 1] == log1 + log2[..|log2| - 1];
    }
  }

  lemma ProjectSnoc(log: seq<SlotAct>, a: SlotAct, slot: nat)
    ensures Project(log + [a], slot) == Project(log, slot) + if a.slot == slot then [a.op] else []
  {
    assert (log + [a])[..|log + [a]| - 1] == log;
  }

  /** The log of `fep0` on one slot after n operations. */
  function SlotLog(slot: nat, n: nat): seq<SlotAct>
  {
    if n == 0 then [] else SlotLog(slot, n - 1) + [SlotAct(slot, OpAt(n - 1))]
  }

  lemma {:induction false} ProjectSlotLog(slot: nat, n: nat, other: nat)
    ensures Project(SlotLog(slot, n), other) == if other == slot then FirstOps(n) else []
  {
    if n > 0 {
      ProjectSlotLog(slot, n - 1, other);
      ProjectSnoc(SlotLog(slot, n - 1), SlotAct(slot, OpAt(n - 1)), other);
    }
  }

  /** The log of `eNB_fep_full`: both removals, then the symbols of the two slots in turn. */
  function PairLog(slot: nat, k: nat): seq<SlotAct>
  {
    if k == 0 then [] else PairLog(slot, k - 1) + [SlotAct(slot, SymbolFft(k - 1)), SlotAct(slot + 1, SymbolFft(k - 1))]
  }

  function FullLog(subframe: nat, symbols: nat): seq<SlotAct>
  {
    [SlotAct(2 * subframe, RemoveHalfShift), SlotAct(2 * subframe + 1, RemoveHalfShift)] + PairLog(2 * subframe, symbols)
  }

  lemma {:induction false} ProjectPairLog(slot: nat, k: nat, other: nat)
    ensures [RemoveHalfShift] + Project(PairLog(slot, k), other)
         == if other == slot || other == slot + 1 then FirstOps(k + 1) else [RemoveHalfShift]
  {
    if k > 0 {
      ProjectPairLog(slot, k - 1, other);
      var init := PairLog(slot, k - 1);
      ProjectSnoc(init + [SlotAct(slot, SymbolFft(k - 1))], SlotAct(slot + 1, SymbolFft(k - 1)), other);
      ProjectSnoc(init, SlotAct(slot, SymbolFft(k - 1)), other);
      assert PairLog(slot, k) == init + [SlotAct(slot, SymbolFft(k - 1))] + [SlotAct(slot + 1, SymbolFft(k - 1))];
    }
  }

  /** In the sequential front end each slot of the subframe gets its whole program exactly once, no other slot is touched. */
  lemma FullLogPerSlot(subframe: nat, symbols: nat, slot: nat)
    ensures Project(FullLog(subframe, symbols), slot) == if slot / 2 == subframe then Program(symbols) else []
  {
    var s := 2 * subframe;
    var first, second := SlotAct(s, RemoveHalfShift), SlotAct(s + 1, RemoveHalfShift);
    ProjectConcat([first, second], PairLog(s, symbols), slot);
    ProjectPairLog(s, symbols, slot);
    ProjectSnoc([first], second, slot);
    ProjectSnoc([], first, slot);
    assert [first] + [second] == [first, second] && [] + [first] == [first];
    assert slot / 2 == subframe <==> slot == s || slot == s + 1;
    if slot / 2 != subframe {
      assert |[RemoveHalfShift] + Project(PairLog(s, symbols), slot)| == 1;
    }
  }

  /** The two-thread front end works on the shared subframe number, the sequential one on its caller's copy: they do the same
      to every slot exactly when the two numbers are equal. */
  lemma SameSubframeNeeded(shared: nat, copy: nat, symbols: nat)
    ensures (forall slot :: 0 <= slot ==> Project(FullLog(shared, symbols), slot) == Project(FullLog(copy, symbols), slot))
       <==> shared == copy
  {
    FullLogPerSlot(shared, symbols, 2 * shared);
    FullLogPerSlot(copy, symbols, 2 * shared);
    assert |Program(symbols)| == symbols + 1;
    assert 2 * shared / 2 == shared;
    assert Project(FullLog(shared, symbols), 2 * shared) == Project(FullLog(copy, symbols), 2 * shared) ==> shared == copy;
  }

  lemma Fep0PerSlot(before: seq<SlotAct>, slot: nat, symbols: nat)
    ensures forall other: nat ::
              Project(before + SlotLog(slot, symbols + 1), other)
              == Project(before, other) + if other == slot then Program(symbols) else []
  {
    forall other: nat
      ensures Project(before + SlotLog(slot, symbols + 1), other)
           == Project(before, other) + if other == slot then Program(symbols) else []
    {
      ProjectConcat(before, SlotLog(slot, symbols + 1), other);
      ProjectSlotLog(slot, symbols + 1, other);
    }
  }

  /** The receive buffers and the routines that work on them. */
  class FrontEnd {
    const symbols: nat
    var log: seq<SlotAct>

    constructor (symbols: nat)
      ensures this.symbols == symbols && log == []
    {
      this.symbols := symbols;
      log := [];
    }

    method Do(slot: nat, op: SlotOp)
      modifies this
      ensures log == old(log) + [SlotAct(slot, op)]
    {
      log := log + [SlotAct(slot, op)];
    }

    method Fep0(slot: nat, subframe: nat)
      modifies this
      ensures log == old(log) + SlotLog(SlotIndex(slot, subframe), symbols + 1)
      ensures forall other: nat ::
                Project(log, other) == Project(old(log), other)
                                     + if other == SlotIndex(slot, subframe) then Program(symbols) else []
    {
      ghost var s := SlotIndex(slot, subframe);
      Do(slot % 2 + 2 * subframe, RemoveHalfShift);
      var l := 0;
      while l < symbols
        invariant 0 <= l <= symbols
        invariant log == old(log) + SlotLog(s, l + 1)
      {
        Do(slot % 2 + 2 * subframe, SymbolFft(l));
        l := l + 1;
      }
      Fep0PerSlot(old(log), s, symbols);
    }

    method FepFull(subframe: nat)
      modifies this
      ensures log == old(log) + FullLog(subframe, symbols)
    {
      Do(2 * subframe, RemoveHalfShift);
      Do(1 + 2 * subframe, RemoveHalfShift);
      var l := 0;
      while l < symbols
        invariant 0 <= l <= symbols
        invariant log == old(log) + FullLog(subframe, l)
      {
        Do(2 * subframe, SymbolFft(l));
        Do(1 + 2 * subframe, SymbolFft(l));
        l := l + 1;
      }
    }
  }
}
