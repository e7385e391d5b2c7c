/** The base station's table of users: three copies of the radio identifier (RNTI) per slot, and the four routines that
    allocate, free and search slots. Identifier 0 marks a free slot. */
module UeTable {

  /** `dlAlloc` and `ulAlloc` say for which slots memory was allocated; the identifiers of a slot are in the downlink
      channel, the uplink channel and the statistics. */
  datatype Table = Table(dlAlloc: seq<bool>, ulAlloc: seq<bool>, dl: seq<nat>, ul: seq<nat>, crnti: seq<nat>)

  predicate Shape(t: Table)
  {
    |t.dlAlloc| == |t.ulAlloc| == |t.dl| == |t.ul| == |t.crnti|
  }

  /** First index from i on, below limit, that holds v; -1 if there is none. */
  function IndexOf(xs: seq<nat>, limit: nat, v: nat, i: nat): (r: int)
    requires i <= limit <= |xs|
    ensures r == -1 || (i <= r < limit && xs[r] == v)
    ensures forall j :: i <= j < (if r == -1 then limit else r) ==> xs[j] != v
    decreases limit - i
  {
    if i == limit then -1 else if xs[i] == v then i else IndexOf(xs, limit, v, i + 1)
  }

  /** The slots before the first one without memory: adding and removing stop there. */
  function Usable(t: Table, i: nat): (r: nat)
    requires Shape(t) && i <= |t.crnti|
    ensures i <= r <= |t.crnti| && (r < |t.crnti| ==> !t.dlAlloc[r] || !t.ulAlloc[r])
    ensures forall j :: i <= j < r ==> t.dlAlloc[j] && t.ulAlloc[j]
    decreases |t.crnti| - i
  {
    if i == |t.crnti| || !t.dlAlloc[i] || !t.ulAlloc[i] then i else Usable(t, i + 1)
  }

  function Write(t: Table, i: int, rnti: nat): (r: Table)
    requires Shape(t) && -1 <= i < |t.crnti|
    ensures Shape(r) && r.dlAlloc == t.dlAlloc && r.ulAlloc == t.ulAlloc && |r.crnti| == |t.crnti|
  {
    if i == -1 then t else t.(dl := t.dl[i := rnti], ul := t.ul[i := rnti], crnti := t.crnti[i := rnti])
  }

  function AddSlot(t: Table): int
    requires Shape(t)
  {
    IndexOf(t.crnti, Usable(t, 0), 0, 0)
  }

  function RemoveSlot(t: Table, rnti: nat): int
    requires Shape(t)
  {
    IndexOf(t.crnti, Usable(t, 0), rnti, 0)
  }

  function FindSlot(t: Table, rnti: nat, i: nat): (r: int)
    requires Shape(t) && i <= |t.crnti|
    ensures r == -1 || (i <= r < |t.crnti| && t.dlAlloc[r] && t.dl[r] == rnti)
    ensures forall j :: i <= j < (if r == -1 then |t.crnti| else r) ==> !(t.dlAlloc[j] && t.dl[j] == rnti)
    decreases |t.crnti| - i
  {
    if i == |t.crnti| then -1 else if t.dlAlloc[i] && t.dl[i] == rnti then i else FindSlot(t, rnti, i + 1)
  }

  function NextSlot(t: Table): int
    requires Shape(t)
  {
    IndexOf(t.crnti, |t.crnti|, 0, 0)
  }

  /* ---------- the routines ---------- */

  class UeSlots {
    const dlAlloc: seq<bool>
    const ulAlloc: seq<bool>
    const dl: array<nat>
    const ul: array<nat>
    const crnti: array<nat>

    ghost function State(): Table
      reads dl, ul, crnti
    {
      Table(dlAlloc, ulAlloc, dl[..], ul[..], crnti[..])
    }

    ghost predicate Valid()
      reads dl, ul, crnti
    {
      Shape(State()) && dl != ul && dl != crnti && ul != crnti
    }

    constructor (dlAlloc: seq<bool>, ulAlloc: seq<bool>)
      requires |dlAlloc| == |ulAlloc|
      ensures Valid() && fresh(dl) && fresh(ul) && fresh(crnti)
      ensures State() == Table(dlAlloc, ulAlloc, Zeros(|dlAlloc|), Zeros(|dlAlloc|), Zeros(|dlAlloc|))
    {
      this.dlAlloc, this.ulAlloc := dlAlloc, ulAlloc;
      dl := new nat[|dlAlloc|](_ => 0);
      ul := new nat[|dlAlloc|](_ => 0);
      crnti := new nat[|dlAlloc|](_ => 0);
      new;
      assert dl[..] == ul[..] == crnti[..] == Zeros(|dlAlloc|);
    }

    method AddUe(rnti: nat) returns (r: int)
      requires Valid()
      modifies dl, ul, crnti
      ensures Valid() && r == AddSlot(old(State())) && State() == Write(old(State()), r, rnti)
    {
      var i := 0;
      while i < |dlAlloc|
        invariant 0 <= i <= |dlAlloc| && dl[..] == old(dl[..]) && ul[..] == old(ul[..]) && crnti[..] == old(crnti[..])
        invariant Usable(State(), 0) == Usable(State(), i)
        invariant AddSlot(State()) == IndexOf(crnti[..], Usable(State(), 0), 0, i)
      {
        if !dlAlloc[i] || !ulAlloc[i] {
          return -1;
        }
        if crnti[i] == 0 {
          dl[i], ul[i], crnti[i] := rnti, rnti, rnti;
          return i;
        }
        i := i + 1;
      }
      return -1;
    }

    method RemoveUe(rnti: nat) returns (r: int)
      requires Valid()
      modifies dl, ul, crnti
      ensures Valid() && r == RemoveSlot(old(State()), rnti) && State() == Write(old(State()), r, 0)
    {
      var i := 0;
      while i < |dlAlloc|
        invariant 0 <= i <= |dlAlloc| && dl[..] == old(dl[..]) && ul[..] == old(ul[..]) && crnti[..] == old(crnti[..])
        invariant Usable(State(), 0) == Usable(State(), i)
        invariant RemoveSlot(State(), rnti) == IndexOf(crnti[..], Usable(State(), 0), rnti, i)
      {
        if !dlAlloc[i] || !ulAlloc[i] {
          return -1;
        }
        if crnti[i] == rnti {
          dl[i], ul[i], crnti[i] := 0, 0, 0;
          return i;
        }
        i := i + 1;
      }
      return -1;
    }

    method FindUe(rnti: nat) returns (r: int)
      requires Valid()
      ensures r == FindSlot(State(), rnti, 0)
    {
      var i := 0;
      while i < |dlAlloc|
        invariant 0 <= i <= |dlAlloc| && FindSlot(State(), rnti, 0) == FindSlot(State(), rnti, i)
      {
        if dlAlloc[i] && dl[i] == rnti {
          return i;
        }
        i := i + 1;
      }
      return -1;
    }

    method FindNextUeIndex() returns (r: int)
      requires Valid()
      ensures r == NextSlot(State())
    {
      var i := 0;
      while i < |dlAlloc|
        invariant 0 <= i <= |dlAlloc| && NextSlot(State()) == IndexOf(crnti[..], crnti.Length, 0, i)
      {
        if crnti[i] == 0 {
          return i;
        }
        i := i + 1;
      }
      return -1;
    }
  }

  function Zeros(n: nat): (r: seq<nat>)
    ensures |r| == n && forall i :: 0 <= i < n ==> r[i] == 0
  {
    seq(n, _ => 0)
  }

  /* ---------- a bounded map from identifiers to slots ---------- */

  type Users = map<nat, nat>

  /** The least slot below limit that no user has; -1 if there is none. */
  function LeastFree(m: Users, limit: nat, i: nat): (r: int)
    requires i <= limit
    ensures r == -1 || (i <= r < limit && r !in m.Values)
    ensures forall j :: i <= j < (if r == -1 then limit else r) ==> j in m.Values
    decreases limit - i
  {
    if i == limit then -1 else if i !in m.Values then i else LeastFree(m, limit, i + 1)
  }

  function MapAdd(m: Users, limit: nat, rnti: nat): Users
  {
    var i := LeastFree(m, limit, 0);
    if i == -1 || rnti == 0 then m else m[rnti := i]
  }

  function MapRemove(m: Users, rnti: nat): Users { m - {rnti} }

  /** The three copies agree, nothing was ever put into a slot the routines cannot reach, and the map lists the users. */
  ghost predicate Refines(t: Table, m: Users)
  {
    && Shape(t) && t.dl == t.crnti && t.ul == t.crnti
    && (forall i :: Usable(t, 0) <= i < |t.crnti| ==> t.crnti[i] == 0)
    && (forall i :: 0 <= i < |t.crnti| && t.crnti[i] != 0 ==> t.crnti[i] in m && m[t.crnti[i]] == i)
    && (forall r :: r in m ==> r != 0 && m[r] < |t.crnti| && t.crnti[m[r]] == r)
  }

  /** Live identifiers are distinct. */
  lemma LiveAreDistinct(t: Table, m: Users, i: nat, j: nat)
    requires Refines(t, m) && i < j < |t.crnti| && t.crnti[i] != 0
    ensures t.crnti[i] != t.crnti[j]
  {
    assert m[t.crnti[i]] == i;
  }

  lemma OccupiedSlots(t: Table, m: Users, i: nat)
    requires Refines(t, m) && i < |t.crnti|
    ensures i in m.Values <==> t.crnti[i] != 0
  {
    if t.crnti[i] != 0 {
      assert t.crnti[i] in m && m[t.crnti[i]] == i;
    }
    if i in m.Values {
      var r :| r in m && m[r] == i;
    }
  }

  lemma UsableUnchanged(t: Table, s: Table, i: nat)
    requires Shape(t) && Shape(s) && i <= |t.crnti| == |s.crnti| && t.dlAlloc == s.dlAlloc && t.ulAlloc == s.ulAlloc
    ensures Usable(t, i) == Usable(s, i)
    decreases |t.crnti| - i
  {
  }

  lemma AddSlotIsLeastFree(t: Table, m: Users)
    requires Refines(t, m)
    ensures AddSlot(t) == LeastFree(m, Usable(t, 0), 0)
  {
    var p := Usable(t, 0);
    var a, b := AddSlot(t), LeastFree(m, p, 0);
    if 0 <= a { OccupiedSlots(t, m, a); }
    if 0 <= b { OccupiedSlots(t, m, b); }
  }

  /** Adding a fresh identifier takes the least free slot, adding identifier 0 changes nothing. */
  lemma AddRefines(t: Table, m: Users, rnti: nat)
    requires Refines(t, m) && rnti !in m
    ensures AddSlot(t) == LeastFree(m, Usable(t, 0), 0)
    ensures Refines(Write(t, AddSlot(t), rnti), MapAdd(m, Usable(t, 0), rnti))
  {
    AddSlotIsLeastFree(t, m);
    var i := AddSlot(t);
    var s, n := Write(t, i, rnti), MapAdd(m, Usable(t, 0), rnti);
    UsableUnchanged(t, s, 0);
    if i >= 0 {
      forall r | r in n
        ensures r != 0 && n[r] < |s.crnti| && s.crnti[n[r]] == r
      {
        if r != rnti {
          assert r in m && m[r] != i;
        }
      }
    }
  }

  lemma RemoveRefines(t: Table, m: Users, rnti: nat)
    requires Refines(t, m) && rnti != 0
    ensures RemoveSlot(t, rnti) == if rnti in m then m[rnti] else -1
    ensures Refines(Write(t, RemoveSlot(t, rnti), 0), MapRemove(m, rnti))
  {
    var i := RemoveSlot(t, rnti);
    if rnti in m {
      assert t.crnti[m[rnti]] == rnti;
    }
    var s, n := Write(t, i, 0), MapRemove(m, rnti);
    UsableUnchanged(t, s, 0);
    forall r | r in n
      ensures r != 0 && n[r] < |s.crnti| && s.crnti[n[r]] == r
    {
      assert r in m && (i >= 0 ==> m[r] != i);
    }
  }

  /** Identifier 0 "removes" the slot that would be handed out next, which changes nothing. */
  lemma RemoveZero(t: Table, m: Users)
    requires Refines(t, m)
    ensures RemoveSlot(t, 0) == AddSlot(t) && Write(t, RemoveSlot(t, 0), 0) == t
  {
  }

  lemma FindRefines(t: Table, m: Users, rnti: nat)
    requires Refines(t, m) && rnti != 0
    ensures FindSlot(t, rnti, 0) == if rnti in m then m[rnti] else -1
  {
    var i := FindSlot(t, rnti, 0);
    if rnti in m {
      assert t.crnti[m[rnti]] == rnti;
    }
  }

  /** An added user is found in its slot, a removed one is not found, everyone else stays where they were. */
  lemma FindAfterAddAndRemove(t: Table, m: Users, rnti: nat, other: nat)
    requires Refines(t, m) && rnti != 0 && other != 0 && other != rnti
    ensures rnti !in m && AddSlot(t) != -1 ==> FindSlot(Write(t, AddSlot(t), rnti), rnti, 0) == AddSlot(t)
    ensures rnti !in m ==> FindSlot(Write(t, AddSlot(t), rnti), other, 0) == FindSlot(t, other, 0)
    ensures var s := Write(t, RemoveSlot(t, rnti), 0);
            FindSlot(s, rnti, 0) == -1 && FindSlot(s, other, 0) == FindSlot(t, other, 0)
  {
    FindRefines(t, m, other);
    if rnti !in m {
      AddRefines(t, m, rnti);
      var s, n := Write(t, AddSlot(t), rnti), MapAdd(m, Usable(t, 0), rnti);
      FindRefines(s, n, rnti);
      FindRefines(s, n, other);
    }
    RemoveRefines(t, m, rnti);
    var s := Write(t, RemoveSlot(t, rnti), 0);
    FindRefines(s, MapRemove(m, rnti), rnti);
    FindRefines(s, MapRemove(m, rnti), other);
  }

  /** Adding breaks the table exactly when the identifier is already live and a slot is free. */
  lemma AddKeepsTableExactly(t: Table, m: Users, rnti: nat)
    requires Refines(t, m)
    ensures (exists n :: Refines(Write(t, AddSlot(t), rnti), n)) <==> rnti !in m || AddSlot(t) == -1
  {
    var s := Write(t, AddSlot(t), rnti);
    if rnti !in m {
      AddRefines(t, m, rnti);
    } else if AddSlot(t) == -1 {
      assert Refines(s, m);
    } else {
      var i, j := m[rnti], AddSlot(t) as nat;
      assert s.crnti[i] == rnti && s.crnti[j] == rnti;
      forall n
        ensures !Refines(s, n)
      {
        if Refines(s, n) {
          LiveAreDistinct(s, n, if i < j then i else j, if i < j then j else i);
        }
      }
    }
  }

  /* ---------- counting ---------- */

  ghost function LiveBelow(t: Table, k: nat): set<nat>
    requires k <= |t.crnti|
  {
    set i | 0 <= i < k && t.crnti[i] != 0 :: t.crnti[i]
  }

  lemma LiveBelowStep(t: Table, m: Users, k: nat)
    requires Refines(t, m) && k < |t.crnti|
    ensures |LiveBelow(t, k + 1)| == |LiveBelow(t, k)| + if t.crnti[k] == 0 then 0 else 1
  {
    var r := t.crnti[k];
    if r == 0 {
      assert LiveBelow(t, k + 1) == LiveBelow(t, k);
    } else {
      assert m[r] == k;
      assert r !in LiveBelow(t, k);
      assert LiveBelow(t, k + 1) == LiveBelow(t, k) + {r};
    }
  }

  lemma {:induction false} LiveBelowSize(t: Table, m: Users, k: nat)
    requires Refines(t, m) && k <= |t.crnti|
    ensures |LiveBelow(t, k)| <= k
    ensures |LiveBelow(t, k)| == k <==> forall i :: 0 <= i < k ==> t.crnti[i] != 0
  {
    if k > 0 {
      LiveBelowSize(t, m, k - 1);
      LiveBelowStep(t, m, k - 1);
    }
  }

  /** Adding fails exactly when there are as many users as usable slots. */
  lemma AddFailsExactlyWhenFull(t: Table, m: Users)
    requires Refines(t, m)
    ensures AddSlot(t) == -1 <==> |m| == Usable(t, 0)
    ensures |m| <= Usable(t, 0)
  {
    var p := Usable(t, 0);
    LiveBelowSize(t, m, p);
    assert m.Keys == LiveBelow(t, p) by {
      forall r
        ensures r in m.Keys <==> r in LiveBelow(t, p)
      {
        if r in m {
          assert t.crnti[m[r]] == r;
        }
      }
    }
    assert |m| == |m.Keys|;
  }

  /** The prediction is right exactly when a usable slot is free or every slot is usable. */
  lemma NextSlotPredictsExactly(t: Table, m: Users)
    requires Refines(t, m)
    ensures NextSlot(t) == AddSlot(t) <==> |m| < Usable(t, 0) || Usable(t, 0) == |t.crnti|
    ensures NextSlot(t) != AddSlot(t) ==> AddSlot(t) == -1
  {
    AddFailsExactlyWhenFull(t, m);
    var p := Usable(t, 0);
    if p < |t.crnti| {
      assert t.crnti[p] == 0;
    }
  }

  /* ---------- any sequence of operations ---------- */

  datatype Op = Add(rnti: nat) | Remove(rnti: nat)

  function Do(t: Table, op: Op): (r: (Table, int))
    requires Shape(t)
    ensures Shape(r.0)
  {
    match op
    case Add(rnti) => (Write(t, AddSlot(t), rnti), AddSlot(t))
    case Remove(rnti) => (Write(t, RemoveSlot(t, rnti), 0), RemoveSlot(t, rnti))
  }

  function MapDo(m: Users, limit: nat, op: Op): (Users, int)
  {
    match op
    case Add(rnti) => (MapAdd(m, limit, rnti), LeastFree(m, limit, 0))
    case Remove(rnti) =>
      (MapRemove(m, rnti), if rnti == 0 then LeastFree(m, limit, 0) else if rnti in m then m[rnti] else -1)
  }

  function Results(t: Table, ops: seq<Op>): (seq<int>, Table)
    requires Shape(t)
    decreases |ops|
  {
    if ops == [] then ([], t)
    else
      var (s, r) := Do(t, ops[0]);
      var (rs, last) := Results(s, ops[1..]);
      ([r] + rs, last)
  }

  function MapResults(m: Users, limit: nat, ops: seq<Op>): (seq<int>, Users)
    decreases |ops|
  {
    if ops == [] then ([], m)
    else
      var (n, r) := MapDo(m, limit, ops[0]);
      var (rs, last) := MapResults(n, limit, ops[1..]);
      ([r] + rs, last)
  }

  /** Identifiers are not added again while they are live. */
  predicate Fresh(m: Users, limit: nat, ops: seq<Op>)
    decreases |ops|
  {
    ops == []
    || ((ops[0].Add? ==> ops[0].rnti !in m) && Fresh(MapDo(m, limit, ops[0]).0, limit, ops[1..]))
  }

  lemma DoRefines(t: Table, m: Users, op: Op)
    requires Refines(t, m) && (op.Add? ==> op.rnti !in m)
    ensures var n := MapDo(m, Usable(t, 0), op);
            Refines(Do(t, op).0, n.0) && Do(t, op).1 == n.1 && Usable(Do(t, op).0, 0) == Usable(t, 0)
  {
    UsableUnchanged(t, Do(t, op).0, 0);
    AddSlotIsLeastFree(t, m);
    match op
    case Add(rnti) => AddRefines(t, m, rnti);
    case Remove(rnti) =>
      if rnti == 0 {
        RemoveZero(t, m);
        assert m - {0} == m;
      } else {
        RemoveRefines(t, m, rnti);
      }
  }

  /** Every sequence of additions of fresh identifiers and removals returns what the map returns and ends in a table that
      holds what the map holds. */
  lemma {:induction false} RunRefinesMap(t: Table, m: Users, ops: seq<Op>)
    requires Refines(t, m) && Fresh(m, Usable(t, 0), ops)
    ensures var a, b := Results(t, ops), MapResults(m, Usable(t, 0), ops);
            a.0 == b.0 && Refines(a.1, b.1)
    decreases |ops|
  {
    if ops != [] {
      DoRefines(t, m, ops[0]);
      RunRefinesMap(Do(t, ops[0]).0, MapDo(m, Usable(t, 0), ops[0]).0, ops[1..]);
    }
  }

  lemma EmptyTable(dlAlloc: seq<bool>, ulAlloc: seq<bool>)
    requires |dlAlloc| == |ulAlloc|
    ensures var z := Zeros(|dlAlloc|); Refines(Table(dlAlloc, ulAlloc, z, z, z), map[])
  {
  }

  /** From the table a new base station starts with, every such sequence behaves as on the empty map. */
  lemma RunFromEmpty(dlAlloc: seq<bool>, ulAlloc: seq<bool>, ops: seq<Op>)
    requires |dlAlloc| == |ulAlloc|
    requires var z := Zeros(|dlAlloc|); Fresh(map[], Usable(Table(dlAlloc, ulAlloc, z, z, z), 0), ops)
    ensures var z := Zeros(|dlAlloc|);
            var t := Table(dlAlloc, ulAlloc, z, z, z);
            var a, b := Results(t, ops), MapResults(map[], Usable(t, 0), ops);
            a.0 == b.0 && Refines(a.1, b.1)
  {
    var z := Zeros(|dlAlloc|);
    EmptyTable(dlAlloc, ulAlloc);
    RunRefinesMap(Table(dlAlloc, ulAlloc, z, z, z), map[], ops);
  }
}
