/** PUCCH resources for acknowledgements: which resource answers which control channel element, in FDD and in TDD
    configurations 1 and 3 (section 10.1 of TS 36.213). */
module Pucch {
  import opened Options
  import opened AckTables
  import opened FrameTiming

  /** The thresholds N_0 to N_3 for a downlink bandwidth. */
  function NpTable(nRb: nat): Option<seq<nat>>
  {
    match nRb
    case 6 => Some([0, 1, 3, 5])
    case 15 => Some([0, 3, 8, 13])
    case 25 => Some([0, 5, 13, 22])
    case 50 => Some([0, 11, 27, 44])
    case 75 => Some([0, 16, 41, 66])
    case 100 => Some([0, 22, 55, 88])
    case _ => None
  }

  predicate Thresholds(np: seq<nat>)
  {
    |np| == 4 && np[0] == 0 && np[1] <= np[2] <= np[3]
  }

  function Select(np: seq<nat>, nCce: nat, plus1: nat): nat
    requires Thresholds(np) && plus1 <= 1
  {
    if nCce >= np[2] then np[2 + plus1] else if nCce >= np[1] then np[1 + plus1] else np[plus1]
  }

  /** get_Np: 0 for a bandwidth it does not know. */
  function GetNp(nRb: nat, nCce: nat, plus1: nat): nat
    requires plus1 <= 1
  {
    match NpTable(nRb)
    case None => 0
    case Some(np) => Select(np, nCce, plus1)
  }

  /** What the base station remembers of a user's downlink: which of the ten subframes carried data, and the first control
      channel element of each. */
  datatype Downlink = Downlink(sent: seq<bool>, nCce: seq<nat>)

  predicate Shape(u: Downlink)
  {
    |u.sent| == 10 && |u.nCce| == 10
  }

  /** get_n1_pucch_eNB: the two resources, None where nothing is expected; no result in a subframe it does not handle. */
  function N1Pucch(d: Duplex, nRb: nat, n1: nat, u: Downlink, subframe: nat): Option<(Option<nat>, Option<nat>)>
    requires Shape(u) && subframe < 10
  {
    match d
    case Fdd =>
      var sf := if subframe < 4 then subframe + 6 else subframe - 4;
      Some((if u.sent[sf] then Some(n1 + u.nCce[sf]) else None, None))
    case Tdd(config) =>
      if config == 1 then
        match subframe
        case 2 => Some((Answer(nRb, n1, u, 5, 0), None))
        case 3 => Some((Answer(nRb, n1, u, 9, 0), None))
        case 7 => Some((Answer(nRb, n1, u, 0, 0), None))
        case 8 => Some((Answer(nRb, n1, u, 4, 0), None))
        case _ => None
      else if config == 3 then
        match subframe
        case 2 => Some((Answer(nRb, n1, u, 5, 0), Answer(nRb, n1, u, 6, 1)))
        case 3 => Some((Answer(nRb, n1, u, 7, 0), Answer(nRb, n1, u, 8, 1)))
        case 4 => Some((Answer(nRb, n1, u, 9, 0), Answer(nRb, n1, u, 0, 1)))
        case _ => None
      else None
  }

  function Answer(nRb: nat, n1: nat, u: Downlink, sf: nat, m: nat): Option<nat>
    requires Shape(u) && sf < 10 && m <= 1
  {
    if u.sent[sf] then Some(GetNp(nRb, u.nCce[sf], m) + u.nCce[sf] + n1) else None
  }

  /* ---------- the blocks tile the resources ---------- */

  /** The tables are the formula of section 10.1: floor(N_RB * (12 p - 4) / 36), and 0 for p = 0. */
  lemma TablesFollowFormula(nRb: nat, p: nat)
    requires NpTable(nRb).Some? && p < 4
    ensures Thresholds(NpTable(nRb).value)
    ensures NpTable(nRb).value[p] == if p == 0 then 0 else nRb * (12 * p - 4) / 36
  {
    assert p == 0 || p == 1 || p == 2 || p == 3;
    assert nRb in {6, 15, 25, 50, 75, 100};
  }

  function Resource(np: seq<nat>, m: nat, nCce: nat): nat
    requires Thresholds(np) && m <= 1
  {
    Select(np, nCce, m) + nCce
  }

  /** Block p of the resources is [2 N_p, 2 N_(p+1)): its first half answers the first subframe, its second half the second. */
  function Owner(np: seq<nat>, r: nat): (o: (nat, nat))
    requires Thresholds(np) && r < 2 * np[3]
    ensures o.0 <= 1 && o.1 < np[3]
  {
    var p := if r >= 2 * np[2] then 2 else if r >= 2 * np[1] then 1 else 0;
    if r < np[p] + np[p + 1] then (0, r - np[p]) else (1, r - np[p + 1])
  }

  /** For every nondecreasing table the map from (subframe, element) to resources is one to one and onto [0, 2 N_3). */
  lemma ResourcesTile(np: seq<nat>, m: nat, nCce: nat, r: nat)
    requires Thresholds(np) && m <= 1
    ensures nCce < np[3] ==> Resource(np, m, nCce) < 2 * np[3] && Owner(np, Resource(np, m, nCce)) == (m, nCce)
    ensures r < 2 * np[3] ==> Resource(np, Owner(np, r).0, Owner(np, r).1) == r
  {
  }

  ghost predicate CollisionFree(np: seq<nat>, k: nat)
    requires Thresholds(np)
  {
    forall m: nat, c: nat, m': nat, c': nat :: m <= 1 && m' <= 1 && c < k && c' < k && (m, c) != (m', c') ==>
      Resource(np, m, c) != Resource(np, m', c')
  }

  /** The first k elements can be used without a collision exactly when k is at most N_3. */
  lemma CollisionFreeExactly(np: seq<nat>, k: nat)
    requires Thresholds(np)
    ensures CollisionFree(np, k) <==> k <= np[3]
  {
    if k <= np[3] {
      forall m: nat, c: nat, m': nat, c': nat | m <= 1 && m' <= 1 && c < k && c' < k && (m, c) != (m', c')
        ensures Resource(np, m, c) != Resource(np, m', c')
      {
        ResourcesTile(np, m, c, 0);
        ResourcesTile(np, m', c', 0);
      }
    } else {
      assert Resource(np, 0, np[3]) == Resource(np, 1, np[2]);
    }
  }

  /** For every report of the terminal: the block in the m-th subframe of the set is answered on n1 plus its first control
      channel element in FDD or for a bandwidth without a table, and in TDD on n1 plus the m-th resource of that element; nothing is expected without a block, nor
      for the second subframe of configuration 1. */
  lemma ResourceOfReport(d: Duplex, nRb: nat, n1: nat, u: Downlink, subframe: nat, m: nat)
    requires Shape(u) && Supported(d) && subframe < 10 && UeLegal(d, subframe) && m < |UeSet(d, subframe)|
    ensures NpTable(nRb).Some? ==> Thresholds(NpTable(nRb).value)
    ensures var sf, v := UeSet(d, subframe)[m], N1Pucch(d, nRb, n1, u, subframe);
            && v.Some?
            && (if m == 0 then v.value.0 else v.value.1)
               == if !u.sent[sf] || (d == Tdd(1) && m == 1) then None
                  else Some(n1 + if d.Tdd? && NpTable(nRb).Some? then Resource(NpTable(nRb).value, m, u.nCce[sf]) else u.nCce[sf])
    ensures |UeSet(d, subframe)| == 1 ==> N1Pucch(d, nRb, n1, u, subframe).value.1 == None
  {
    if NpTable(nRb).Some? {
      TablesFollowFormula(nRb, 0);
    }
  }

  /* ---------- users do not collide ---------- */

  predicate Uses(r: Option<(Option<nat>, Option<nat>)>, x: nat)
  {
    r.Some? && (r.value.0 == Some(x) || r.value.1 == Some(x))
  }

  /** Two users were never given the same element in one subframe, and in TDD all elements are below N_3. */
  predicate Separate(d: Duplex, nRb: nat, u: Downlink, v: Downlink)
    requires Shape(u) && Shape(v)
  {
    && (forall sf :: 0 <= sf < 10 ==> u.sent[sf] && v.sent[sf] ==> u.nCce[sf] != v.nCce[sf])
    && (d.Tdd? ==> Low(nRb, u) && Low(nRb, v))
  }

  predicate Low(nRb: nat, u: Downlink)
    requires Shape(u)
  {
    NpTable(nRb).Some? && forall sf :: 0 <= sf < 10 ==> u.nCce[sf] < NpTable(nRb).value[3]
  }

  lemma AnswersDiffer(nRb: nat, n1: nat, u: Downlink, sf: nat, m: nat, v: Downlink, sf': nat, m': nat)
    requires Shape(u) && Shape(v) && Low(nRb, u) && Low(nRb, v) && sf < 10 && sf' < 10 && m <= 1 && m' <= 1
    requires m != m' || (sf == sf' && (u.sent[sf] && v.sent[sf] ==> u.nCce[sf] != v.nCce[sf]))
    ensures Answer(nRb, n1, u, sf, m).Some? ==> Answer(nRb, n1, u, sf, m) != Answer(nRb, n1, v, sf', m')
  {
    var np := NpTable(nRb).value;
    TablesFollowFormula(nRb, 0);
    ResourcesTile(np, m, u.nCce[sf], 0);
    ResourcesTile(np, m', v.nCce[sf'], 0);
  }

  /** Separate users never answer on the same resource of an uplink subframe, and one user's two resources differ. */
  lemma {:induction false} UsersDoNotCollide(d: Duplex, nRb: nat, n1: nat, u: Downlink, v: Downlink, subframe: nat, x: nat)
    requires Shape(u) && Shape(v) && subframe < 10 && Separate(d, nRb, u, v)
    ensures !(Uses(N1Pucch(d, nRb, n1, u, subframe), x) && Uses(N1Pucch(d, nRb, n1, v, subframe), x))
    ensures var r := N1Pucch(d, nRb, n1, u, subframe); r.Some? && r.value.0.Some? ==> r.value.0 != r.value.1
  {
    if d.Tdd? {
      forall sf, sf', m, m' | 0 <= sf < 10 && 0 <= sf' < 10 && 0 <= m <= 1 && 0 <= m' <= 1
        ensures m != m' || sf == sf' ==>
                  Answer(nRb, n1, u, sf, m).Some? ==> Answer(nRb, n1, u, sf, m) != Answer(nRb, n1, v, sf', m')
        ensures m != m' ==>
                  Answer(nRb, n1, u, sf, m).Some? ==> Answer(nRb, n1, u, sf, m) != Answer(nRb, n1, u, sf', m')
      {
        if m != m' || sf == sf' {
          AnswersDiffer(nRb, n1, u, sf, m, v, sf', m');
        }
        if m != m' {
          AnswersDiffer(nRb, n1, u, sf, m, u, sf', m');
        }
      }
    }
    hide Answer;
  }
}
