/** Contention-based uplink access: one receive pass over the users. A scheduling flag set on one member of a group is handed
    from member to member, and each group delivers one packet; further senders get a scheduling request instead. */
module Cba {

  const MAX_GROUPS := 4

  /** `rntis[k]` is the user's identifier in group k, 0 if it is not a member. */
  datatype User = User(present: bool, groups: nat, rntis: seq<nat>)

  /** What the decoder found: whether the block decoded, and whether its report named a known kind of access. */
  datatype Outcome = Outcome(decoded: bool, knownAccess: bool)

  datatype Event = Sdu(user: nat) | Sr(user: nat) | Lost(user: nat) | Ignored(user: nat)

  datatype Cell = Cell(users: seq<User>, outcomes: seq<Outcome>, macEnabled: bool)

  datatype State = State(flags: seq<bool>, last: seq<nat>, events: seq<Event>)

  /** At most four groups per user, and the next member of a group has memory allocated. */
  predicate Sound(c: Cell)
  {
    && |c.users| == |c.outcomes|
    && forall i :: 0 <= i < |c.users| ==>
         && c.users[i].groups <= MAX_GROUPS && |c.users[i].rntis| == MAX_GROUPS
         && (c.users[i].present && i + c.users[i].groups < |c.users| ==> c.users[i + c.users[i].groups].present)
  }

  /** The group a user sends in. */
  function GroupOf(c: Cell, i: nat): (k: nat)
    requires Sound(c) && i < |c.users| && c.users[i].groups > 0
    ensures k < MAX_GROUPS
  {
    i % c.users[i].groups
  }

  predicate Eligible(c: Cell, i: nat)
    requires Sound(c) && i < |c.users|
  {
    var u := c.users[i];
    u.present && u.groups > 0 && u.rntis[GroupOf(c, i)] > 0
  }

  predicate Passes(c: Cell, j: nat, i: nat)
    requires Sound(c) && j < |c.users| && i < |c.users|
  {
    && c.users[j].groups > 0 && i == j + c.users[j].groups
    && c.users[i].groups > 0 && c.users[i].rntis[GroupOf(c, j)] > 0
  }

  predicate Fits(c: Cell, s: State)
  {
    |s.flags| == |c.users| && |s.last| == MAX_GROUPS
  }

  function Report(c: Cell, s: State, i: nat): Event
    requires Sound(c) && i < |c.users| && Fits(c, s) && c.users[i].groups > 0
  {
    var o := c.outcomes[i];
    if !o.decoded then Lost(i)
    else if !o.knownAccess then Ignored(i)
    else if s.last[GroupOf(c, i)] == 0 && c.macEnabled then Sdu(i)
    else Sr(i)
  }

  /** cba_procedures for user i. */
  function Step(c: Cell, s: State, i: nat): (t: State)
    requires Sound(c) && i < |c.users| && Fits(c, s)
    ensures Fits(c, t)
  {
    if !Eligible(c, i) || !s.flags[i] then s
    else
      var next := i + c.users[i].groups;
      var cleared := s.flags[i := false];
      var flags := if next < |c.users| && Passes(c, i, next) then cleared[next := true] else cleared;
      var e := Report(c, s, i);
      var k := GroupOf(c, i);
      State(flags, if e.Sdu? || e.Sr? then s.last[k := s.last[k] + 1] else s.last, s.events + [e])
  }

  /** The state after users 0 to n-1 of a pass that starts with these flags. */
  function Pass(c: Cell, flags: seq<bool>, n: nat): (s: State)
    requires Sound(c) && n <= |c.users| == |flags|
    ensures Fits(c, s)
  {
    if n == 0 then State(flags, [0, 0, 0, 0], []) else Step(c, Pass(c, flags, n - 1), n - 1)
  }

  /* ---------- the routine ---------- */

  class CbaReceiver {
    const cell: Cell
    const flags: array<bool>
    const last: array<nat>
    var events: seq<Event>

    ghost function Current(): State
      reads this, flags, last
    {
      State(flags[..], last[..], events)
    }

    ghost predicate Valid()
      reads this, flags, last
    {
      Sound(cell) && Fits(cell, Current())
    }

    constructor (cell: Cell, initial: seq<bool>)
      requires Sound(cell) && |initial| == |cell.users|
      ensures this.cell == cell && Valid() && flags[..] == initial && fresh(flags) && fresh(last)
    {
      this.cell := cell;
      flags := new bool[|initial|](i requires 0 <= i < |initial| => initial[i]);
      last := new nat[4](_ => 0);
      events := [];
    }

    method CbaProcedures(i: nat)
      requires Valid() && i < |cell.users|
      modifies this`events, flags, last
      ensures Valid() && Current() == Step(cell, old(Current()), i)
    {
      var u := cell.users[i];
      if !u.present {
        return;
      }
      if u.groups > 0 && u.rntis[i % u.groups] > 0 && flags[i] {
        flags[i] := false;
        if i + u.groups < |cell.users| && cell.users[i + u.groups].rntis[i % u.groups] > 0
           && cell.users[i + u.groups].groups > 0 {
          flags[i + u.groups] := true;
        }
        var o := cell.outcomes[i];
        var k := i % u.groups;
        if !o.decoded {
          events := events + [Lost(i)];
        } else if !o.knownAccess {
          events := events + [Ignored(i)];
        } else if last[k] == 0 && cell.macEnabled {
          events := events + [Sdu(i)];
          last[k] := last[k] + 1;
        } else {
          last[k] := last[k] + 1;
          events := events + [Sr(i)];
        }
      }
    }

    method ReceivePass()
      requires Valid()
      modifies this`events, flags, last
      ensures Valid() && Current() == Pass(cell, old(flags[..]), |cell.users|)
    {
      events := [];
      var k := 0;
      while k < 4
        modifies last
        invariant 0 <= k <= 4 && forall j :: 0 <= j < k ==> last[j] == 0
      {
        last[k] := 0;
        k := k + 1;
      }
      assert last[..] == [0, 0, 0, 0];
      var i := 0;
      while i < |cell.users|
        invariant 0 <= i <= |cell.users| && Valid()
        invariant Current() == Pass(cell, old(flags[..]), i)
      {
        CbaProcedures(i);
        i := i + 1;
      }
    }
  }

  /* ---------- who is reached ---------- */

  /** User i is looked at: it is eligible and flagged from the start or by an earlier user. */
  ghost predicate Reached(c: Cell, f: seq<bool>, i: nat)
    requires Sound(c) && i < |c.users| == |f|
  {
    Eligible(c, i) && (f[i] || exists j :: 0 <= j < i && Reached(c, f, j) && Passes(c, j, i))
  }

  /** User i is flagged once users below n have been served. */
  ghost predicate Flagged(c: Cell, f: seq<bool>, i: nat, n: nat)
    requires Sound(c) && i < |c.users| == |f|
  {
    f[i] || exists j :: 0 <= j < n && j < i && Reached(c, f, j) && Passes(c, j, i)
  }

  /** A flag is left over exactly on a flagged user that is not eligible. */
  lemma {:induction false} FlagsDuringPass(c: Cell, f: seq<bool>, n: nat)
    requires Sound(c) && n <= |c.users| == |f|
    ensures forall i :: 0 <= i < |f| ==>
              Pass(c, f, n).flags[i] == if i < n then Flagged(c, f, i, i) && !Eligible(c, i) else Flagged(c, f, i, n)
  {
    if n > 0 {
      FlagsDuringPass(c, f, n - 1);
      var s := Pass(c, f, n - 1);
      var j := n - 1;
      assert Reached(c, f, j) <==> Eligible(c, j) && s.flags[j];
      forall i | 0 <= i < |f|
        ensures Pass(c, f, n).flags[i] == if i < n then Flagged(c, f, i, i) && !Eligible(c, i) else Flagged(c, f, i, n)
      {
        FlaggedStep(c, f, i, j);
      }
    }
  }

  lemma FlaggedStep(c: Cell, f: seq<bool>, i: nat, j: nat)
    requires Sound(c) && i < |c.users| == |f| && j < |f|
    ensures i > j ==> (Flagged(c, f, i, j + 1) <==> Flagged(c, f, i, j) || (Reached(c, f, j) && Passes(c, j, i)))
  {
  }

  /** User i is eligible if it is ever flagged. */
  ghost predicate Settled(c: Cell, f: seq<bool>, i: nat)
    requires Sound(c) && i < |c.users| == |f|
  {
    Flagged(c, f, i, i) ==> Eligible(c, i)
  }

  lemma LeftFlag(c: Cell, f: seq<bool>, i: nat)
    requires Sound(c) && i < |f| == |c.users|
    ensures Pass(c, f, |f|).flags[i] <==> !Settled(c, f, i)
  {
    FlagsDuringPass(c, f, |f|);
    assert Pass(c, f, |f|).flags[i] == (Flagged(c, f, i, i) && !Eligible(c, i));
  }

  /** All flags are clear at the end exactly when every user that was ever flagged is eligible. */
  lemma AllFlagsClearIff(c: Cell, f: seq<bool>)
    requires Sound(c) && |f| == |c.users|
    ensures (forall i :: 0 <= i < |f| ==> !Pass(c, f, |f|).flags[i])
       <==> (forall i :: 0 <= i < |f| ==> Settled(c, f, i))
  {
    hide Pass, Settled;
    if forall i :: 0 <= i < |f| ==> Settled(c, f, i) {
      forall i | 0 <= i < |f|
        ensures !Pass(c, f, |f|).flags[i]
      {
        LeftFlag(c, f, i);
        assert Settled(c, f, i);
      }
    } else {
      var i :| 0 <= i < |f| && !Settled(c, f, i);
      LeftFlag(c, f, i);
      assert Pass(c, f, |f|).flags[i];
    }
  }

  function EventsOf(events: seq<Event>, i: nat): nat
  {
    if events == [] then 0
    else EventsOf(events[..|events| - 1], i) + if events[|events| - 1].user == i then 1 else 0
  }

  /** Every reached user is handled exactly once and nobody else is handled. */
  lemma {:induction false} HandledExactlyOnce(c: Cell, f: seq<bool>, n: nat, i: nat)
    requires Sound(c) && n <= |c.users| == |f| && i < |f|
    ensures EventsOf(Pass(c, f, n).events, i) == if i < n && Reached(c, f, i) then 1 else 0
  {
    if n > 0 {
      HandledExactlyOnce(c, f, n - 1, i);
      FlagsDuringPass(c, f, n - 1);
      var s, t := Pass(c, f, n - 1), Pass(c, f, n);
      assert Reached(c, f, n - 1) <==> Eligible(c, n - 1) && s.flags[n - 1];
      if t.events != s.events {
        assert t.events[..|t.events| - 1] == s.events;
      }
    }
  }

  predicate Handled(c: Cell, f: seq<bool>, i: nat)
    requires Sound(c) && i < |c.users| == |f|
  {
    EventsOf(Pass(c, f, |f|).events, i) == 1
  }

  /** A user is handled exactly if it is there, is in at least one group, has an identifier at its own counter, and was flagged
      at the start or comes as many places after a handled user as that one has groups, with an identifier at that one's
      counter too. */
  lemma HandledExactly(c: Cell, f: seq<bool>, i: nat)
    requires Sound(c) && i < |c.users| == |f|
    ensures Handled(c, f, i) <==>
              var u := c.users[i];
              && u.present && u.groups > 0 && u.rntis[i % u.groups] > 0
              && (f[i] || exists j :: 0 <= j < i && Handled(c, f, j) && c.users[j].groups > 0
                                      && i == j + c.users[j].groups && u.rntis[j % c.users[j].groups] > 0)
  {
    forall j | 0 <= j <= i
      ensures Handled(c, f, j) <==> Reached(c, f, j)
    {
      HandledExactlyOnce(c, f, |f|, j);
    }
    hide Handled, Pass;
    if j :| 0 <= j < i && Reached(c, f, j) && Passes(c, j, i) {
      assert Handled(c, f, j);
    }
    if j :| 0 <= j < i && Handled(c, f, j) && c.users[j].groups > 0
            && i == j + c.users[j].groups && c.users[i].rntis[j % c.users[j].groups] > 0 {
      assert Eligible(c, i) ==> Passes(c, j, i);
    }
  }

  /* ---------- equal group counts ---------- */

  predicate SameGroups(c: Cell, g: nat)
  {
    1 <= g <= MAX_GROUPS && forall i :: 0 <= i < |c.users| ==> c.users[i].groups == g
  }

  /** Going back from i in steps of g there are only eligible users, down to one that was flagged. */
  predicate Chain(c: Cell, f: seq<bool>, g: nat, i: nat)
    requires Sound(c) && i < |c.users| == |f| && g > 0
  {
    Eligible(c, i) && (f[i] || (i >= g && Chain(c, f, g, i - g)))
  }

  lemma SameGroup(i: nat, g: nat)
    requires 1 <= g <= MAX_GROUPS && g <= i
    ensures (i - g) % g == i % g
  {
  }

  /** The flag travels through the group in steps of the number of groups. */
  lemma {:induction false} ReachedThroughGroup(c: Cell, f: seq<bool>, g: nat, i: nat)
    requires Sound(c) && SameGroups(c, g) && i < |c.users| == |f|
    ensures Reached(c, f, i) <==> Chain(c, f, g, i)
  {
    if i >= g {
      SameGroup(i, g);
      ReachedThroughGroup(c, f, g, i - g);
      assert Eligible(c, i) ==> Passes(c, i - g, i);
    }
  }

  lemma HandedOnIsEligible(c: Cell, f: seq<bool>, g: nat, i: nat)
    requires Sound(c) && SameGroups(c, g) && i < |f| == |c.users|
    ensures Settled(c, f, i) <==> (f[i] ==> Eligible(c, i))
  {
    if j :| 0 <= j < i && Reached(c, f, j) && Passes(c, j, i) {
      SameGroup(i, g);
    }
  }

  /** All flags are clear at the end exactly when no flag was set on a user that is not eligible. */
  lemma AllFlagsClearExactly(c: Cell, f: seq<bool>, g: nat)
    requires Sound(c) && SameGroups(c, g) && |f| == |c.users|
    ensures (forall i :: 0 <= i < |f| ==> !Pass(c, f, |f|).flags[i])
       <==> (forall i :: 0 <= i < |f| ==> f[i] ==> Eligible(c, i))
  {
    hide Pass, Settled, SameGroups, Eligible;
    AllFlagsClearIff(c, f);
    forall i | 0 <= i < |f|
      ensures Settled(c, f, i) <==> (f[i] ==> Eligible(c, i))
    {
      HandedOnIsEligible(c, f, g, i);
    }
  }

  /* ---------- one packet per group ---------- */

  /** Accepted packets of group k among the events, and how many of them were delivered. */
  function Accepted(c: Cell, events: seq<Event>, k: nat): nat
    requires Sound(c)
  {
    if events == [] then 0
    else Accepted(c, events[..|events| - 1], k) + if InGroup(c, events[|events| - 1], k) then 1 else 0
  }

  function Delivered(c: Cell, events: seq<Event>, k: nat): nat
    requires Sound(c)
  {
    if events == [] then 0
    else
      var e := events[|events| - 1];
      Delivered(c, events[..|events| - 1], k) + if InGroup(c, e, k) && e.Sdu? then 1 else 0
  }

  predicate InGroup(c: Cell, e: Event, k: nat)
    requires Sound(c)
  {
    && (e.Sdu? || e.Sr?) && e.user < |c.users| && c.users[e.user].groups > 0 && GroupOf(c, e.user) == k
    && c.outcomes[e.user] == Outcome(true, true)
  }

  lemma AppendCounts(c: Cell, events: seq<Event>, e: Event, k: nat)
    requires Sound(c)
    ensures Accepted(c, events + [e], k) == Accepted(c, events, k) + if InGroup(c, e, k) then 1 else 0
    ensures Delivered(c, events + [e], k) == Delivered(c, events, k) + if InGroup(c, e, k) && e.Sdu? then 1 else 0
  {
    assert (events + [e])[..|events|] == events;
  }

  /** The counter of a group counts its accepted packets; with MAC exactly the first one is delivered. */
  predicate OnePacket(c: Cell, s: State, k: nat)
    requires Sound(c) && Fits(c, s) && k < MAX_GROUPS
  {
    && s.last[k] == Accepted(c, s.events, k)
    && Delivered(c, s.events, k) == if c.macEnabled && Accepted(c, s.events, k) > 0 then 1 else 0
  }

  lemma StepLast(c: Cell, s: State, i: nat, k: nat)
    requires Sound(c) && Fits(c, s) && i < |c.users| && k < MAX_GROUPS && Eligible(c, i) && s.flags[i]
    ensures var t, e := Step(c, s, i), Report(c, s, i);
            && t.events == s.events + [e]
            && t.last[k] == s.last[k] + if (e.Sdu? || e.Sr?) && GroupOf(c, i) == k then 1 else 0
  {
  }

  lemma ReportInGroup(c: Cell, s: State, i: nat, k: nat)
    requires Sound(c) && Fits(c, s) && i < |c.users| && k < MAX_GROUPS && Eligible(c, i)
    ensures var e := Report(c, s, i);
            && (InGroup(c, e, k) <==> (e.Sdu? || e.Sr?) && GroupOf(c, i) == k)
            && (InGroup(c, e, k) ==> (e.Sdu? <==> s.last[k] == 0 && c.macEnabled))
  {
  }

  lemma StepOnePacket(c: Cell, s: State, i: nat, k: nat)
    requires Sound(c) && Fits(c, s) && i < |c.users| && k < MAX_GROUPS && OnePacket(c, s, k)
    ensures OnePacket(c, Step(c, s, i), k)
  {
    if Eligible(c, i) && s.flags[i] {
      StepLast(c, s, i, k);
      ReportInGroup(c, s, i, k);
      AppendCounts(c, s.events, Report(c, s, i), k);
      ServedKeepsOnePacket(c, s, Step(c, s, i), Report(c, s, i), k);
    }
  }

  lemma ServedKeepsOnePacket(c: Cell, s: State, t: State, e: Event, k: nat)
    requires Sound(c) && Fits(c, s) && Fits(c, t) && k < MAX_GROUPS && OnePacket(c, s, k)
    requires t.last[k] == s.last[k] + if InGroup(c, e, k) then 1 else 0
    requires InGroup(c, e, k) ==> (e.Sdu? <==> s.last[k] == 0 && c.macEnabled)
    requires Accepted(c, t.events, k) == Accepted(c, s.events, k) + if InGroup(c, e, k) then 1 else 0
    requires Delivered(c, t.events, k) == Delivered(c, s.events, k) + if InGroup(c, e, k) && e.Sdu? then 1 else 0
    ensures OnePacket(c, t, k)
  {
    hide Accepted, Delivered, InGroup;
  }

  /** With MAC a group delivers its first accepted packet and turns every further one into a scheduling request; without MAC
      it delivers nothing. */
  lemma {:induction false} OnePacketPerGroup(c: Cell, f: seq<bool>, n: nat, k: nat)
    requires Sound(c) && n <= |c.users| == |f| && k < MAX_GROUPS
    ensures OnePacket(c, Pass(c, f, n), k)
  {
    if n > 0 {
      OnePacketPerGroup(c, f, n - 1, k);
      StepOnePacket(c, Pass(c, f, n - 1), n - 1, k);
    }
  }

  /* ---------- who is taken for a collision ---------- */

  /** User j is accepted in the same pass before user i and counts in the same counter. */
  ghost predicate Contender(c: Cell, f: seq<bool>, j: nat, i: nat)
    requires Sound(c) && j < i < |c.users| == |f|
  {
    Accepts(c, f, j) && c.users[i].groups > 0 && GroupOf(c, j) == GroupOf(c, i)
  }

  ghost predicate Accepts(c: Cell, f: seq<bool>, i: nat)
    requires Sound(c) && i < |c.users| == |f|
  {
    Reached(c, f, i) && c.outcomes[i] == Outcome(true, true)
  }

  /** Some user below n is accepted in counter k. */
  ghost predicate AcceptedBelow(c: Cell, f: seq<bool>, n: nat, k: nat)
    requires Sound(c) && n <= |c.users| == |f|
  {
    exists j :: 0 <= j < n && Accepts(c, f, j) && GroupOf(c, j) == k
  }

  /** The counter of a group is above 0 when user n is served exactly if an earlier user was accepted in it. */
  lemma {:induction false} CounterMeansContender(c: Cell, f: seq<bool>, n: nat, k: nat)
    requires Sound(c) && n <= |c.users| == |f| && k < MAX_GROUPS
    ensures Pass(c, f, n).last[k] > 0 <==> AcceptedBelow(c, f, n, k)
  {
    if n > 0 {
      CounterMeansContender(c, f, n - 1, k);
      TurnCounter(c, f, n - 1, k);
      AcceptedBelowStep(c, f, n - 1, k);
    }
    hide Step, Accepts;
  }

  lemma AcceptedBelowStep(c: Cell, f: seq<bool>, n: nat, k: nat)
    requires Sound(c) && n < |c.users| == |f|
    ensures AcceptedBelow(c, f, n + 1, k) <==> AcceptedBelow(c, f, n, k) || (Accepts(c, f, n) && GroupOf(c, n) == k)
  {
  }

  lemma TurnCounter(c: Cell, f: seq<bool>, n: nat, k: nat)
    requires Sound(c) && n < |c.users| == |f| && k < MAX_GROUPS
    ensures Pass(c, f, n + 1).last[k] == Pass(c, f, n).last[k] + if Accepts(c, f, n) && GroupOf(c, n) == k then 1 else 0
  {
    FlagsDuringPass(c, f, n);
    assert Reached(c, f, n) <==> Eligible(c, n) && Pass(c, f, n).flags[n];
    StepCounter(c, Pass(c, f, n), n, k);
    hide Step;
  }

  lemma StepCounter(c: Cell, s: State, i: nat, k: nat)
    requires Sound(c) && Fits(c, s) && i < |c.users| && k < MAX_GROUPS
    ensures Step(c, s, i).last[k] == s.last[k]
              + if Eligible(c, i) && s.flags[i] && c.outcomes[i] == Outcome(true, true) && GroupOf(c, i) == k then 1 else 0
  {
  }

  /** What happens to user n in its turn. */
  lemma EventInTurn(c: Cell, f: seq<bool>, n: nat)
    requires Sound(c) && n < |c.users| == |f|
    ensures var s, t := Pass(c, f, n), Pass(c, f, n + 1);
            t.events == if Reached(c, f, n) then s.events + [Report(c, s, n)] else s.events
  {
    FlagsDuringPass(c, f, n);
    assert Reached(c, f, n) <==> Eligible(c, n) && Pass(c, f, n).flags[n];
  }

  /** The event is what its user's turn reports. */
  ghost predicate OfTurn(c: Cell, f: seq<bool>, e: Event)
    requires Sound(c) && |c.users| == |f|
  {
    e.user < |f| && Reached(c, f, e.user) && e == Report(c, Pass(c, f, e.user), e.user)
  }

  lemma TurnEvents(c: Cell, f: seq<bool>, n: nat, e: Event)
    requires Sound(c) && n < |c.users| == |f|
    ensures e in Pass(c, f, n + 1).events <==> e in Pass(c, f, n).events || (e.user == n && OfTurn(c, f, e))
  {
    EventInTurn(c, f, n);
    if Reached(c, f, n) {
      assert Report(c, Pass(c, f, n), n).user == n;
    }
    hide Step, Passes;
  }

  /** The events of a user are those of its own turn. */
  lemma {:induction false} EventOnlyInTurn(c: Cell, f: seq<bool>, n: nat, e: Event)
    requires Sound(c) && n <= |c.users| == |f|
    ensures e in Pass(c, f, n).events <==> e.user < n && OfTurn(c, f, e)
  {
    if n > 0 {
      EventOnlyInTurn(c, f, n - 1, e);
      TurnEvents(c, f, n - 1, e);
    }
    hide Step, OfTurn;
  }

  /** For every cell and every user: its packet is delivered exactly if MAC runs, the user is reached and accepted, and no
      earlier user was accepted in its counter; with such a user it is taken for a collision. */
  lemma DeliveredExactly(c: Cell, f: seq<bool>, i: nat)
    requires Sound(c) && i < |c.users| == |f|
    ensures var es := Pass(c, f, |f|).events;
            && (Sdu(i) in es <==> c.macEnabled && Accepts(c, f, i) && !exists j :: 0 <= j < i && Contender(c, f, j, i))
            && (Sr(i) in es <==> Accepts(c, f, i) && (!c.macEnabled || exists j :: 0 <= j < i && Contender(c, f, j, i)))
            && (Lost(i) in es <==> Reached(c, f, i) && !c.outcomes[i].decoded)
            && (Ignored(i) in es <==> Reached(c, f, i) && c.outcomes[i].decoded && !c.outcomes[i].knownAccess)
  {
    EventOnlyInTurn(c, f, |f|, Sdu(i));
    EventOnlyInTurn(c, f, |f|, Sr(i));
    EventOnlyInTurn(c, f, |f|, Lost(i));
    EventOnlyInTurn(c, f, |f|, Ignored(i));
    if Reached(c, f, i) {
      ContenderCounted(c, f, i);
    }
    hide Pass, Reached, Contender;
  }

  lemma ContenderCounted(c: Cell, f: seq<bool>, i: nat)
    requires Sound(c) && i < |c.users| == |f| && c.users[i].groups > 0
    ensures (exists j :: 0 <= j < i && Contender(c, f, j, i)) <==> Pass(c, f, i).last[GroupOf(c, i)] > 0
  {
    CounterMeansContender(c, f, i, GroupOf(c, i));
    hide Pass;
    if j :| 0 <= j < i && Accepts(c, f, j) && GroupOf(c, j) == GroupOf(c, i) {
      assert Contender(c, f, j, i);
    }
  }

  /** The identifier a user sends with; users with one identifier share their resources. */
  function Identifier(c: Cell, i: nat): nat
    requires Sound(c) && i < |c.users| && c.users[i].groups > 0
  {
    c.users[i].rntis[GroupOf(c, i)]
  }

  /** An earlier user was accepted with the same identifier. */
  ghost predicate Collides(c: Cell, f: seq<bool>, i: nat)
    requires Sound(c) && i < |c.users| == |f| && c.users[i].groups > 0
  {
    exists j :: 0 <= j < i && Accepts(c, f, j) && Identifier(c, j) == Identifier(c, i)
  }

  /** If the user is accepted, it raises a scheduling request exactly if it collides, and is delivered exactly if not. */
  ghost predicate Judged(c: Cell, f: seq<bool>, i: nat)
    requires Sound(c) && i < |c.users| == |f|
  {
    Accepts(c, f, i) ==>
      var es := Pass(c, f, |f|).events;
      (Sr(i) in es <==> Collides(c, f, i)) && (Sdu(i) in es <==> !Collides(c, f, i))
  }

  /** Among users that can be reached, sharing a counter and sharing an identifier are the same. */
  ghost predicate CountersAreGroups(c: Cell)
    requires Sound(c)
  {
    forall j, i :: 0 <= j < i < |c.users| && Eligible(c, j) && Eligible(c, i) ==>
      (GroupOf(c, j) == GroupOf(c, i) <==> Identifier(c, j) == Identifier(c, i))
  }

  /** In every pass over these users, whatever the flags and whatever is decoded, every user is judged rightly. */
  ghost predicate AlwaysJudged(c: Cell)
    requires Sound(c)
  {
    forall o: seq<Outcome>, f: seq<bool>, i | |o| == |f| == |c.users| && 0 <= i < |f| :: Judged(c.(outcomes := o), f, i)
  }

  lemma JudgedIfCountersAreGroups(c: Cell, f: seq<bool>, i: nat)
    requires Sound(c) && CountersAreGroups(c) && i < |c.users| == |f| && c.macEnabled
    ensures Judged(c, f, i)
  {
    if Accepts(c, f, i) {
      DeliveredExactly(c, f, i);
      assert Collides(c, f, i) <==> exists j :: 0 <= j < i && Contender(c, f, j, i) by {
        SameCounterSameIdentifier(c, f, i);
      }
    }
    hide Pass, Accepts, Collides, Contender;
  }

  lemma SameCounterSameIdentifier(c: Cell, f: seq<bool>, i: nat)
    requires Sound(c) && CountersAreGroups(c) && i < |c.users| == |f| && Accepts(c, f, i)
    ensures Collides(c, f, i) <==> exists j :: 0 <= j < i && Contender(c, f, j, i)
  {
    if j :| 0 <= j < i && Contender(c, f, j, i) {
      assert Eligible(c, j) && Eligible(c, i);
      assert Identifier(c, j) == Identifier(c, i);
    }
    if j :| 0 <= j < i && Accepts(c, f, j) && Identifier(c, j) == Identifier(c, i) {
      assert Eligible(c, j) && Eligible(c, i);
      assert Contender(c, f, j, i);
    }
  }

  /** A pass in which only users j and i send, and both are flagged. */
  lemma PairMisjudged(c: Cell, j: nat, i: nat) returns (o: seq<Outcome>, f: seq<bool>)
    requires Sound(c) && c.macEnabled && j < i < |c.users| && Eligible(c, j) && Eligible(c, i)
    requires (GroupOf(c, j) == GroupOf(c, i)) != (Identifier(c, j) == Identifier(c, i))
    ensures |o| == |f| == |c.users| && !Judged(c.(outcomes := o), f, i)
  {
    o := seq(|c.users|, k => Outcome(k == j || k == i, true));
    f := seq(|c.users|, k => k == j || k == i);
    var cell := c.(outcomes := o);
    assert Eligible(cell, j) && Eligible(cell, i);
    assert Accepts(cell, f, j) && Accepts(cell, f, i);
    assert forall k :: 0 <= k < i && Accepts(cell, f, k) ==> k == j;
    DeliveredExactly(cell, f, i);
    assert Collides(cell, f, i) <==> Identifier(cell, j) == Identifier(cell, i);
    assert (exists k :: 0 <= k < i && Contender(cell, f, k, i)) <==> Contender(cell, f, j, i);
    hide Pass, Reached;
  }

  /** For any identifiers: with MAC all passes judge all users rightly exactly if, among users that can be reached, those of one
      counter are those of one identifier. */
  lemma AlwaysJudgedExactly(c: Cell)
    requires Sound(c) && c.macEnabled
    ensures AlwaysJudged(c) <==> CountersAreGroups(c)
  {
    if CountersAreGroups(c) {
      forall o: seq<Outcome>, f: seq<bool>, i | |o| == |f| == |c.users| && 0 <= i < |f|
        ensures Judged(c.(outcomes := o), f, i)
      {
        OutcomesDoNotMatter(c, o);
        JudgedIfCountersAreGroups(c.(outcomes := o), f, i);
      }
    } else {
      var j, i :| 0 <= j < i < |c.users| && Eligible(c, j) && Eligible(c, i)
                  && (GroupOf(c, j) == GroupOf(c, i)) != (Identifier(c, j) == Identifier(c, i));
      var o, f := PairMisjudged(c, j, i);
    }
    hide Judged;
  }

  lemma OutcomesDoNotMatter(c: Cell, o: seq<Outcome>)
    requires Sound(c) && CountersAreGroups(c) && |o| == |c.users|
    ensures Sound(c.(outcomes := o)) && CountersAreGroups(c.(outcomes := o))
  {
    var d := c.(outcomes := o);
    forall j, i | 0 <= j < i < |d.users| && Eligible(d, j) && Eligible(d, i)
      ensures GroupOf(d, j) == GroupOf(d, i) <==> Identifier(d, j) == Identifier(d, i)
    {
      assert Eligible(c, j) && Eligible(c, i);
    }
  }

  /** What MAC configures: counter k has identifier base + k whatever the number of groups, and a user with groups has that of
      its own counter. Other indices are free: they may hold identifiers of earlier configurations, which are not taken back,
      and each grant to a group is also written to index 0 of the user that represents it. */
  predicate MacRule(c: Cell, base: nat)
    requires Sound(c)
  {
    base > 0 && forall i :: 0 <= i < |c.users| ==> c.users[i].groups > 0 ==> Identifier(c, i) == base + GroupOf(c, i)
  }

  /** User i is the representative a grant with this identifier is sent for; the first such user is taken. */
  predicate Represents(c: Cell, rnti: nat, i: nat)
    requires Sound(c) && i < |c.users| && i < MAX_GROUPS
  {
    c.users[i].present && c.users[i].groups > 0 && c.users[i].rntis[i] == rnti
  }

  /** A grant sent for user i overwrites its index 0. */
  function AfterGrant(c: Cell, rnti: nat, i: nat): (r: Cell)
    requires Sound(c) && i < |c.users|
    ensures Sound(r) && |r.users| == |c.users|
  {
    var u := c.users[i];
    c.(users := c.users[i := u.(rntis := u.rntis[0 := rnti])])
  }

  /** The grant changes no identifier in use except that of user i, and only if that user counts in counter 0. */
  lemma GrantedIdentifier(c: Cell, rnti: nat, i: nat, k: nat)
    requires Sound(c) && i < |c.users| && k < |c.users|
    ensures var r := AfterGrant(c, rnti, i);
            r.users[k].groups == c.users[k].groups && (c.users[k].groups > 0 ==>
              && GroupOf(r, k) == GroupOf(c, k)
              && Identifier(r, k) == if k == i && GroupOf(c, i) == 0 then rnti else Identifier(c, k))
  {
  }

  /** The rule survives a grant exactly if its representative does not count in counter 0 or the grant is for identifier base.
      It is lost only if the representative has no more groups than its own number, that is, after its number was lowered. */
  lemma GrantKeepsRuleExactly(c: Cell, base: nat, rnti: nat, i: nat)
    requires Sound(c) && MacRule(c, base) && i < |c.users| && i < MAX_GROUPS && Represents(c, rnti, i)
    ensures MacRule(AfterGrant(c, rnti, i), base) <==> GroupOf(c, i) != 0 || rnti == base
    ensures !MacRule(AfterGrant(c, rnti, i), base) ==> c.users[i].groups <= i
  {
    hide AfterGrant, Identifier, Sound;
    var r := AfterGrant(c, rnti, i);
    GrantedIdentifier(c, rnti, i, i);
    if GroupOf(c, i) != 0 || rnti == base {
      forall k | 0 <= k < |r.users|
        ensures r.users[k].groups > 0 ==> Identifier(r, k) == base + GroupOf(r, k)
      {
        GrantedIdentifier(c, rnti, i, k);
      }
    }
    if c.users[i].groups > i {
      OwnCounter(c, i);
    }
  }

  lemma OwnCounter(c: Cell, i: nat)
    requires Sound(c) && i < |c.users| && c.users[i].groups > i
    ensures GroupOf(c, i) == i && Identifier(c, i) == c.users[i].rntis[i]
  {
  }

  /** Under MAC's rule an accepted user raises a scheduling request exactly if it collides, and is delivered exactly if not,
      for every mixture of group counts. */
  lemma CollisionsJudgedRightly(c: Cell, base: nat, f: seq<bool>, i: nat)
    requires Sound(c) && MacRule(c, base) && i < |c.users| == |f| && c.macEnabled && Accepts(c, f, i)
    ensures var es := Pass(c, f, |f|).events;
            (Sr(i) in es <==> Collides(c, f, i)) && (Sdu(i) in es <==> !Collides(c, f, i))
  {
    RuleMakesGroups(c, base);
    JudgedIfCountersAreGroups(c, f, i);
    hide Pass, Accepts, Collides, MacRule, CountersAreGroups;
  }

  lemma RuleMakesGroups(c: Cell, base: nat)
    requires Sound(c) && MacRule(c, base)
    ensures CountersAreGroups(c)
  {
    forall j, i | 0 <= j < i < |c.users| && Eligible(c, j) && Eligible(c, i)
      ensures GroupOf(c, j) == GroupOf(c, i) <==> Identifier(c, j) == Identifier(c, i)
    {
      assert Identifier(c, j) == base + GroupOf(c, j) && Identifier(c, i) == base + GroupOf(c, i);
    }
  }

  /** Under MAC's rule no handed-on flag is left: all flags are clear at the end exactly if none was set at the start on a user
      that is not eligible, for every mixture of group counts. */
  lemma MacFlagsClearExactly(c: Cell, base: nat, f: seq<bool>)
    requires Sound(c) && MacRule(c, base) && |f| == |c.users|
    ensures (forall i :: 0 <= i < |f| ==> !Pass(c, f, |f|).flags[i])
       <==> (forall i :: 0 <= i < |f| ==> f[i] ==> Eligible(c, i))
  {
    AllFlagsClearIff(c, f);
    forall i | 0 <= i < |f|
      ensures Settled(c, f, i) <==> (f[i] ==> Eligible(c, i))
    {
      PassedOnIsEligible(c, base, f, i);
    }
    hide Pass, Settled, MacRule, Eligible;
  }

  lemma PassedOnIsEligible(c: Cell, base: nat, f: seq<bool>, i: nat)
    requires Sound(c) && MacRule(c, base) && i < |f| == |c.users|
    ensures Settled(c, f, i) <==> (f[i] ==> Eligible(c, i))
  {
    if j :| 0 <= j < i && Reached(c, f, j) && Passes(c, j, i) {
      assert c.users[i].present;
      assert Identifier(c, i) == base + GroupOf(c, i) > 0;
      assert Eligible(c, i);
    }
  }
}
