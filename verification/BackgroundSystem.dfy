/** Any number of callers share one background process through a mutex and two pipes.
    Pipes hold at most `capacity` bytes and every read or write moves as many bytes as it likes. */
module BackgroundSystem {
  import opened Options
  import opened PipeCodec

  const MAX_COMMAND := 4096

  datatype CallerPc =
    | Outside
    | WantLock
    | SendLength(left: seq<Byte>)
    | SendCommand(left: seq<Byte>)
    | Await(got: seq<Byte>)
    | Release(raw: int)

  datatype Caller = Caller(pc: CallerPc, command: seq<Byte>)

  datatype Server =
    | ReadLength(got: seq<Byte>)
    | ReadCommand(len: int, got: seq<Byte>)
    | RunCommand(buffer: seq<Byte>)
    | SendStatus(left: seq<Byte>)

  datatype Turn = Turn(caller: nat, command: seq<Byte>)
  datatype Executed = Executed(command: seq<Byte>, outcome: Outcome)
  datatype Result = Result(caller: nat, value: int)

  datatype State = State(
    callers: seq<Caller>,
    lock: Option<nat>,
    commandPipe: seq<Byte>,
    resultPipe: seq<Byte>,
    server: Server,
    turns: seq<Turn>,           // in the order in which the lock was taken
    executed: seq<Executed>,    // in the order in which the server ran them
    results: seq<Result>,       // in the order in which calls returned
    aborted: bool)

  datatype Act =
    | Start(i: nat, command: seq<Byte>)
    | Lock(i: nat)
    | Write(i: nat, n: nat)
    | Read(i: nat, n: nat)
    | Unlock(i: nat)
    | ServerRead(n: nat)
    | ServerRun(outcome: Outcome)
    | ServerWrite(n: nat)

  function Init(callers: nat): State
  {
    State(seq(callers, _ => Caller(Outside, [])), None, [], [], ReadLength([]), [], [], [], false)
  }

  function Wanted(server: Server): int
  {
    match server
    case ReadLength(got) => 4 - |got|
    case ReadCommand(len, got) => len - |got|
    case _ => 0
  }

  predicate Enabled(s: State, capacity: nat, a: Act)
  {
    && !s.aborted
    && match a
       case Start(i, command) => i < |s.callers| && s.callers[i].pc.Outside? && NoNul(command)
       case Lock(i) => i < |s.callers| && s.callers[i].pc.WantLock? && s.lock == None
       case Write(i, n) =>
         && i < |s.callers| && (s.callers[i].pc.SendLength? || s.callers[i].pc.SendCommand?)
         && 1 <= n <= |s.callers[i].pc.left| && |s.commandPipe| + n <= capacity
       case Read(i, n) =>
         i < |s.callers| && s.callers[i].pc.Await? && 1 <= n <= |s.resultPipe| && |s.callers[i].pc.got| + n <= 4
       case Unlock(i) => i < |s.callers| && s.callers[i].pc.Release?
       case ServerRead(n) => 1 <= n <= |s.commandPipe| && n <= Wanted(s.server)
       case ServerRun(outcome) => s.server.RunCommand? && ValidOutcome(outcome)
       case ServerWrite(n) => s.server.SendStatus? && 1 <= n <= |s.server.left| && |s.resultPipe| + n <= capacity
  }

  function SetPc(s: State, i: nat, pc: CallerPc): seq<Caller>
    requires i < |s.callers|
  {
    s.callers[i := s.callers[i].(pc := pc)]
  }

  function AfterWrite(c: Caller, n: nat): CallerPc
    requires (c.pc.SendLength? || c.pc.SendCommand?) && n <= |c.pc.left|
  {
    if n < |c.pc.left| then
      if c.pc.SendLength? then SendLength(c.pc.left[n..]) else SendCommand(c.pc.left[n..])
    else
      if c.pc.SendLength? then SendCommand(c.command + [0]) else Await([])
  }

  function AfterServerRead(server: Server, bytes: seq<Byte>): Server
    requires |bytes| <= Wanted(server)
  {
    match server
    case ReadLength(got) => if |got + bytes| == 4 then ReadCommand(DecodeInt(got + bytes), []) else ReadLength(got + bytes)
    case ReadCommand(len, got) => if |got + bytes| == len then RunCommand(got + bytes) else ReadCommand(len, got + bytes)
    case _ => server
  }

  function Next(s: State, capacity: nat, a: Act): State
    requires Enabled(s, capacity, a)
  {
    match a
    case Start(i, command) =>
      if |command| + 1 > MAX_COMMAND then s.(aborted := true)
      else s.(callers := s.callers[i := Caller(WantLock, command)])
    case Lock(i) =>
      s.(callers := SetPc(s, i, SendLength(EncodeInt(|s.callers[i].command| + 1))), lock := Some(i),
         turns := s.turns + [Turn(i, s.callers[i].command)])
    case Write(i, n) =>
      s.(callers := SetPc(s, i, AfterWrite(s.callers[i], n)),
         commandPipe := s.commandPipe + s.callers[i].pc.left[..n])
    case Read(i, n) =>
      var got := s.callers[i].pc.got + s.resultPipe[..n];
      s.(callers := SetPc(s, i, if |got| == 4 then Release(DecodeInt(got)) else Await(got)),
         resultPipe := s.resultPipe[n..])
    case Unlock(i) =>
      var raw := s.callers[i].pc.raw;
      s.(callers := SetPc(s, i, Outside), lock := None, results := s.results + [Result(i, ReturnValue(raw))])
    case ServerRead(n) =>
      s.(server := AfterServerRead(s.server, s.commandPipe[..n]), commandPipe := s.commandPipe[n..])
    case ServerRun(outcome) =>
      s.(server := SendStatus(EncodeInt(WaitStatus(outcome))),
         executed := s.executed + [Executed(CString(s.server.buffer), outcome)])
    case ServerWrite(n) =>
      s.(server := if n < |s.server.left| then SendStatus(s.server.left[n..]) else ReadLength([]),
         resultPipe := s.resultPipe + s.server.left[..n])
  }

  function Run(callers: nat, capacity: nat, acts: seq<Act>): State
  {
    if acts == [] then Init(callers)
    else
      var s := Run(callers, capacity, acts[..|acts| - 1]);
      var a := acts[|acts| - 1];
      if Enabled(s, capacity, a) then Next(s, capacity, a) else s
  }

  /* ---------- the invariant ---------- */

  predicate Critical(pc: CallerPc) { !pc.Outside? && !pc.WantLock? }

  function Message(command: seq<Byte>): seq<Byte>
  {
    EncodeInt(|command| + 1) + (command + [0])
  }

  function Unsent(c: Caller): seq<Byte>
  {
    match c.pc
    case SendLength(left) => left + (c.command + [0])
    case SendCommand(left) => left
    case _ => []
  }

  function Taken(server: Server, command: seq<Byte>): seq<Byte>
  {
    match server
    case ReadLength(got) => got
    case ReadCommand(_, got) => EncodeInt(|command| + 1) + got
    case RunCommand(buffer) => EncodeInt(|command| + 1) + buffer
    case SendStatus(_) => []
  }

  /** The holder's command has not been run yet: what the server took, what is in the pipe and what is unsent make up the message. */
  predicate Requesting(c: Caller, s: State)
  {
    && s.resultPipe == []
    && !c.pc.Release? && (c.pc.Await? ==> c.pc.got == [])
    && !s.server.SendStatus?
    && (s.server.ReadLength? ==> |s.server.got| < 4)
    && (s.server.ReadCommand? ==> s.server.len == |c.command| + 1 && |s.server.got| < s.server.len)
    && (s.server.RunCommand? ==> |s.server.buffer| == |c.command| + 1)
    && Taken(s.server, c.command) + s.commandPipe + Unsent(c) == Message(c.command)
  }

  /** The holder's command ran with status `raw`: what the caller got, what is in the pipe and what is unsent make up the status. */
  predicate Answering(c: Caller, s: State, raw: int)
  {
    && IsInt32(raw)
    && s.commandPipe == []
    && match c.pc
       case Await(got) =>
         && |got| < 4
         && (s.server.SendStatus? || s.server == ReadLength([]))
         && got + s.resultPipe + (if s.server.SendStatus? then s.server.left else []) == EncodeInt(raw)
       case Release(r) => r == raw && s.resultPipe == [] && s.server == ReadLength([])
       case _ => false
  }

  predicate WellFormed(c: Caller)
  {
    && NoNul(c.command) && |c.command| + 1 <= MAX_COMMAND
    && (c.pc.SendLength? || c.pc.SendCommand? ==> c.pc.left != [])
  }

  predicate ServerOk(server: Server)
  {
    server.SendStatus? ==> server.left != []
  }

  predicate Exclusive(s: State)
  {
    forall i :: 0 <= i < |s.callers| ==> WellFormed(s.callers[i]) && (Critical(s.callers[i].pc) <==> s.lock == Some(i))
  }

  predicate Conversation(s: State)
  {
    match s.lock
    case None =>
      && s.commandPipe == [] && s.resultPipe == [] && s.server == ReadLength([])
      && |s.turns| == |s.executed| == |s.results|
    case Some(i) =>
      && i < |s.callers|
      && |s.turns| == |s.results| + 1
      && s.turns[|s.results|] == Turn(i, s.callers[i].command)
      && (|s.executed| == |s.results| ==> Requesting(s.callers[i], s))
      && (|s.executed| != |s.results| ==>
            |s.executed| == |s.turns| && Answering(s.callers[i], s, WaitStatus(s.executed[|s.results|].outcome)))
  }

  predicate History(s: State)
  {
    && |s.results| <= |s.executed| <= |s.turns|
    && (forall k :: 0 <= k < |s.executed| ==> s.executed[k].command == s.turns[k].command)
    && (forall k :: 0 <= k < |s.results| ==>
          s.results[k] == Result(s.turns[k].caller, ReturnValue(WaitStatus(s.executed[k].outcome))))
    && (forall k :: 0 <= k < |s.executed| ==> ValidOutcome(s.executed[k].outcome))
  }

  predicate Inv(s: State)
  {
    ServerOk(s.server) && Exclusive(s) && Conversation(s) && History(s)
  }

  lemma StartKeepsInv(s: State, capacity: nat, i: nat, command: seq<Byte>)
    requires Inv(s) && Enabled(s, capacity, Start(i, command))
    ensures Inv(Next(s, capacity, Start(i, command)))
  {
    assert !Critical(s.callers[i].pc);
  }

  lemma LockKeepsInv(s: State, capacity: nat, i: nat)
    requires Inv(s) && Enabled(s, capacity, Lock(i))
    ensures Inv(Next(s, capacity, Lock(i)))
  {
    var t := Next(s, capacity, Lock(i));
    assert !Critical(s.callers[i].pc) && WellFormed(s.callers[i]);
    assert [] + [] + Unsent(t.callers[i]) == Message(t.callers[i].command);
    assert Requesting(t.callers[i], t);
  }

  lemma UnlockKeepsInv(s: State, capacity: nat, i: nat)
    requires Inv(s) && Enabled(s, capacity, Unlock(i))
    ensures Inv(Next(s, capacity, Unlock(i)))
  {
    assert Critical(s.callers[i].pc);
  }

  lemma WriteMovesBytes(c: Caller, n: nat, taken: seq<Byte>, pipe: seq<Byte>)
    requires WellFormed(c) && (c.pc.SendLength? || c.pc.SendCommand?) && 1 <= n <= |c.pc.left|
    ensures var d := c.(pc := AfterWrite(c, n));
            && WellFormed(d) && Critical(d.pc) && !d.pc.Release? && (d.pc.Await? ==> d.pc.got == [])
            && taken + (pipe + c.pc.left[..n]) + Unsent(d) == taken + pipe + Unsent(c)
  {
    var d := c.(pc := AfterWrite(c, n));
    assert c.pc.left[..n] + c.pc.left[n..] == c.pc.left;
    assert c.pc.left[..n] + Unsent(d) == Unsent(c);
  }

  lemma WriteKeepsInv(s: State, capacity: nat, i: nat, n: nat)
    requires Inv(s) && Enabled(s, capacity, Write(i, n))
    ensures Inv(Next(s, capacity, Write(i, n)))
  {
    var t := Next(s, capacity, Write(i, n));
    var c := s.callers[i];
    assert s.lock == Some(i) by { assert Critical(c.pc); }
    WriteMovesBytes(c, n, Taken(s.server, c.command), s.commandPipe);
    assert t.callers[i] == c.(pc := AfterWrite(c, n));
    assert Requesting(t.callers[i], t) by { assert Requesting(c, s); }
    assert Exclusive(t) && Conversation(t);
  }

  lemma AnswerSurvivesRead(s: State, t: State, c: Caller, raw: int, n: nat)
    requires ServerOk(s.server) && Answering(c, s, raw) && c.pc.Await? && 1 <= n <= |s.resultPipe| && |c.pc.got| + n <= 4
    requires t.commandPipe == s.commandPipe && t.server == s.server && t.resultPipe == s.resultPipe[n..]
    ensures var got := c.pc.got + s.resultPipe[..n];
            var pc := if |got| == 4 then Release(DecodeInt(got)) else Await(got);
            Critical(pc) && Answering(c.(pc := pc), t, raw)
  {
    var got := c.pc.got + s.resultPipe[..n];
    var left := if s.server.SendStatus? then s.server.left else [];
    assert got + t.resultPipe + left == c.pc.got + s.resultPipe + left;
    if |got| == 4 {
      assert got == EncodeInt(raw);
      IntRoundTrip(raw);
    }
    hide EncodeInt, DecodeInt;
  }

  lemma ReadKeepsInv(s: State, capacity: nat, i: nat, n: nat)
    requires Inv(s) && Enabled(s, capacity, Read(i, n))
    ensures Inv(Next(s, capacity, Read(i, n)))
  {
    var t, c := Next(s, capacity, Read(i, n)), s.callers[i];
    assert s.lock == Some(i) by { assert Critical(c.pc); }
    assert !Requesting(c, s);
    var raw := WaitStatus(s.executed[|s.results|].outcome);
    AnswerSurvivesRead(s, t, c, raw, n);
    assert WellFormed(t.callers[i]) && Critical(t.callers[i].pc);
    assert Answering(t.callers[i], t, raw);
    assert Exclusive(t) && Conversation(t);
    hide DecodeInt, WaitStatus, ReturnValue, Message;
  }

  /** However the request is cut into reads, the server assembles the length first and then exactly that many bytes. */
  lemma ServerReadMoves(server: Server, command: seq<Byte>, bytes: seq<Byte>, rest: seq<Byte>)
    requires !server.SendStatus? && |bytes| <= Wanted(server) && |command| + 1 <= MAX_COMMAND
    requires server.ReadCommand? ==> server.len == |command| + 1
    requires Taken(server, command) + bytes + rest == Message(command)
    ensures var after := AfterServerRead(server, bytes);
            && !after.SendStatus?
            && Taken(after, command) + rest == Message(command)
            && (after.ReadLength? && !server.RunCommand? ==> |after.got| < 4)
            && (after.ReadCommand? ==> after.len == |command| + 1 && |after.got| < after.len)
            && (after.RunCommand? && !server.RunCommand? ==> |after.buffer| == |command| + 1)
  {
    var before := Taken(server, command) + bytes;
    if server.ReadLength? {
      if |before| == 4 {
        assert before == Message(command)[..4] == EncodeInt(|command| + 1);
        IntRoundTrip(|command| + 1);
        assert EncodeInt(|command| + 1) + [] == before;
      }
    } else if server.ReadCommand? {
      assert before == EncodeInt(|command| + 1) + (server.got + bytes);
    }
  }

  predicate SameCallers(s: State, t: State)
  {
    t.callers == s.callers && t.lock == s.lock && t.turns == s.turns && t.executed == s.executed && t.results == s.results
  }

  lemma ServerReadKeepsInv(s: State, capacity: nat, n: nat)
    requires Inv(s) && Enabled(s, capacity, ServerRead(n))
    ensures Inv(Next(s, capacity, ServerRead(n)))
  {
    var t := Next(s, capacity, ServerRead(n));
    assert SameCallers(s, t) && t.resultPipe == s.resultPipe;
    assert s.lock.Some?;
    RequestSurvivesRead(s, t, s.callers[s.lock.value], n);
  }

  lemma RequestSurvivesRead(s: State, t: State, c: Caller, n: nat)
    requires WellFormed(c) && Requesting(c, s) && 1 <= n <= |s.commandPipe| && n <= Wanted(s.server)
    requires t.resultPipe == s.resultPipe && t.commandPipe == s.commandPipe[n..]
    requires t.server == AfterServerRead(s.server, s.commandPipe[..n])
    ensures Requesting(c, t)
  {
    hide AfterServerRead, Taken, Unsent, Message;
    var bytes := s.commandPipe[..n];
    assert s.commandPipe == bytes + t.commandPipe;
    Regroup(Taken(s.server, c.command), bytes, t.commandPipe, Unsent(c));
    ServerReadMoves(s.server, c.command, bytes, t.commandPipe + Unsent(c));
    Regroup(Taken(t.server, c.command), [], t.commandPipe, Unsent(c));
    assert [] + t.commandPipe == t.commandPipe && Taken(t.server, c.command) + [] == Taken(t.server, c.command);
  }

  lemma Regroup(a: seq<Byte>, b: seq<Byte>, c: seq<Byte>, d: seq<Byte>)
    ensures a + (b + c) + d == a + b + (c + d)
  {
  }

  lemma ServerRunKeepsInv(s: State, capacity: nat, outcome: Outcome)
    requires Inv(s) && Enabled(s, capacity, ServerRun(outcome))
    ensures Inv(Next(s, capacity, ServerRun(outcome)))
  {
    assert s.lock.Some?;
    var c := s.callers[s.lock.value];
    assert WellFormed(c) && Requesting(c, s);
    var whole := Taken(s.server, c.command) + s.commandPipe + Unsent(c);
    assert |whole| == |Message(c.command)| == 4 + |c.command| + 1;
    assert s.commandPipe == [] && Unsent(c) == [];
    assert s.server.buffer == whole[4..] == c.command + [0];
    CStringOfTerminated(c.command);
    assert c.pc.Await?;
    var raw := WaitStatus(outcome);
    assert [] + [] + EncodeInt(raw) == EncodeInt(raw);
  }

  lemma AnswerSurvivesWrite(s: State, t: State, c: Caller, raw: int, n: nat)
    requires Answering(c, s, raw) && s.server.SendStatus? && 1 <= n <= |s.server.left|
    requires t.server == if n < |s.server.left| then SendStatus(s.server.left[n..]) else ReadLength([])
    requires t.commandPipe == s.commandPipe && t.resultPipe == s.resultPipe + s.server.left[..n]
    ensures ServerOk(t.server) && Answering(c, t, raw)
  {
    var left := if t.server.SendStatus? then t.server.left else [];
    assert c.pc.got + t.resultPipe + left == c.pc.got + s.resultPipe + s.server.left;
    hide EncodeInt;
  }

  lemma ServerWriteKeepsInv(s: State, capacity: nat, n: nat)
    requires Inv(s) && Enabled(s, capacity, ServerWrite(n))
    ensures Inv(Next(s, capacity, ServerWrite(n)))
  {
    var t := Next(s, capacity, ServerWrite(n));
    assert s.lock.Some?;
    var c := s.callers[s.lock.value];
    assert !Requesting(c, s);
    AnswerSurvivesWrite(s, t, c, WaitStatus(s.executed[|s.results|].outcome), n);
    hide Answering, WaitStatus, ReturnValue, Taken, Unsent, Message;
  }

  lemma StepKeepsInv(s: State, capacity: nat, a: Act)
    requires Inv(s) && Enabled(s, capacity, a)
    ensures Inv(Next(s, capacity, a))
  {
    match a
    case Start(i, command) => StartKeepsInv(s, capacity, i, command);
    case Lock(i) => LockKeepsInv(s, capacity, i);
    case Write(i, n) => WriteKeepsInv(s, capacity, i, n);
    case Read(i, n) => ReadKeepsInv(s, capacity, i, n);
    case Unlock(i) => UnlockKeepsInv(s, capacity, i);
    case ServerRead(n) => ServerReadKeepsInv(s, capacity, n);
    case ServerRun(outcome) => ServerRunKeepsInv(s, capacity, outcome);
    case ServerWrite(n) => ServerWriteKeepsInv(s, capacity, n);
  }

  lemma {:induction false} RunKeepsInv(callers: nat, capacity: nat, acts: seq<Act>)
    ensures Inv(Run(callers, capacity, acts))
  {
    if acts != [] {
      var init := acts[..|acts| - 1];
      RunKeepsInv(callers, capacity, init);
      var s, a := Run(callers, capacity, init), acts[|acts| - 1];
      if Enabled(s, capacity, a) {
        StepKeepsInv(s, capacity, a);
      }
    }
  }

  /* ---------- which calls were made ---------- */

  /** The command of the last call caller i started. */
  function LastStarted(callers: nat, capacity: nat, acts: seq<Act>, i: nat): Option<seq<Byte>>
  {
    if acts == [] then None
    else
      var init, a := acts[..|acts| - 1], acts[|acts| - 1];
      if a.Start? && a.i == i && Enabled(Run(callers, capacity, init), capacity, a) then Some(a.command)
      else LastStarted(callers, capacity, init, i)
  }

  /** Who took the lock, in order, each with the command it had started. */
  function LockOrder(callers: nat, capacity: nat, acts: seq<Act>): seq<(nat, Option<seq<Byte>>)>
  {
    if acts == [] then []
    else
      var init, a := acts[..|acts| - 1], acts[|acts| - 1];
      LockOrder(callers, capacity, init)
      + if a.Lock? && Enabled(Run(callers, capacity, init), capacity, a)
        then [(a.i, LastStarted(callers, capacity, init, a.i))] else []
  }

  predicate Holding(s: State, i: nat, command: Option<seq<Byte>>)
  {
    i < |s.callers| && !s.callers[i].pc.Outside? && !s.aborted ==> command == Some(s.callers[i].command)
  }

  lemma StepHolds(s: State, capacity: nat, a: Act, i: nat, before: Option<seq<Byte>>)
    requires Enabled(s, capacity, a) && Holding(s, i, before)
    ensures Holding(Next(s, capacity, a), i, if a.Start? && a.i == i then Some(a.command) else before)
  {
  }

  lemma {:induction false} CallerHoldsLastStarted(callers: nat, capacity: nat, acts: seq<Act>, i: nat)
    ensures Holding(Run(callers, capacity, acts), i, LastStarted(callers, capacity, acts, i))
  {
    if acts != [] {
      var init, a := acts[..|acts| - 1], acts[|acts| - 1];
      CallerHoldsLastStarted(callers, capacity, init, i);
      var s := Run(callers, capacity, init);
      if Enabled(s, capacity, a) {
        StepHolds(s, capacity, a, i, LastStarted(callers, capacity, init, i));
      }
      hide Next, Enabled, Holding;
    }
  }

  lemma StepTurns(s: State, capacity: nat, a: Act)
    requires Enabled(s, capacity, a)
    ensures Next(s, capacity, a).turns
         == s.turns + if a.Lock? then [Turn(a.i, s.callers[a.i].command)] else []
  {
  }

  /** The lock holders' commands are those they were called with. */
  lemma {:induction false} TurnsAreCalls(callers: nat, capacity: nat, acts: seq<Act>, k: nat)
    ensures var turns, order := Run(callers, capacity, acts).turns, LockOrder(callers, capacity, acts);
            |turns| == |order| && (k < |turns| ==> order[k] == (turns[k].caller, Some(turns[k].command)))
  {
    if acts != [] {
      var init, a := acts[..|acts| - 1], acts[|acts| - 1];
      TurnsAreCalls(callers, capacity, init, k);
      var s := Run(callers, capacity, init);
      if Enabled(s, capacity, a) {
        StepTurns(s, capacity, a);
        if a.Lock? {
          CallerHoldsLastStarted(callers, capacity, init, a.i);
        }
      }
      hide Next;
    }
  }

  /** Step n is a call with a command that does not fit with its NUL. */
  predicate TooLongAt(callers: nat, capacity: nat, acts: seq<Act>, n: nat)
    requires n < |acts|
  {
    acts[n].Start? && |acts[n].command| >= MAX_COMMAND && Enabled(Run(callers, capacity, acts[..n]), capacity, acts[n])
  }

  lemma TooLongInPrefix(callers: nat, capacity: nat, acts: seq<Act>, last: nat, n: nat)
    requires n < last <= |acts|
    ensures TooLongAt(callers, capacity, acts[..last], n) <==> TooLongAt(callers, capacity, acts, n)
  {
    assert acts[..last][..n] == acts[..n];
    hide Run, Enabled;
  }

  /** The program is stopped exactly if some call was made with a command that does not fit. */
  lemma {:induction false} AbortsExactly(callers: nat, capacity: nat, acts: seq<Act>)
    ensures Run(callers, capacity, acts).aborted
       <==> exists n :: 0 <= n < |acts| && TooLongAt(callers, capacity, acts, n)
  {
    hide Run, TooLongAt;
    if acts == [] {
      NothingAborts(callers, capacity);
    } else {
      var last := |acts| - 1;
      AbortsExactly(callers, capacity, acts[..last]);
      forall n | 0 <= n < last
        ensures TooLongAt(callers, capacity, acts[..last], n) <==> TooLongAt(callers, capacity, acts, n)
      {
        TooLongInPrefix(callers, capacity, acts, last, n);
      }
      LastAborts(callers, capacity, acts);
    }
  }

  lemma NothingAborts(callers: nat, capacity: nat)
    ensures !Run(callers, capacity, []).aborted
  {
  }

  lemma {:induction false} LastAborts(callers: nat, capacity: nat, acts: seq<Act>)
    requires acts != []
    ensures var last := |acts| - 1;
            Run(callers, capacity, acts).aborted
            <==> Run(callers, capacity, acts[..last]).aborted || TooLongAt(callers, capacity, acts, last)
  {
    hide Next, Enabled;
    var last := |acts| - 1;
    AbortStep(Run(callers, capacity, acts[..last]), capacity, acts[last]);
  }

  lemma AbortStep(s: State, capacity: nat, a: Act)
    ensures Enabled(s, capacity, a) ==>
              (Next(s, capacity, a).aborted <==> a.Start? && |a.command| >= MAX_COMMAND)
    ensures s.aborted ==> !Enabled(s, capacity, a)
  {
  }

  /* ---------- main results ---------- */

  /** The k-th call to return is the k-th that took the lock; the command run for it is the one it was called with, and it
      returns 0 if that command exited with code 0 and -1 otherwise. */
  lemma OwnStatusInLockOrder(callers: nat, capacity: nat, acts: seq<Act>, k: nat)
    requires k < |Run(callers, capacity, acts).results|
    ensures var s, order := Run(callers, capacity, acts), LockOrder(callers, capacity, acts);
            && k < |order| && k < |s.executed|
            && order[k] == (s.results[k].caller, Some(s.executed[k].command))
            && s.results[k].value == if s.executed[k].outcome == Exited(0) then 0 else -1
  {
    RunKeepsInv(callers, capacity, acts);
    TurnsAreCalls(callers, capacity, acts, k);
    ReturnValueExactly(Run(callers, capacity, acts).executed[k].outcome);
    hide Run, LockOrder, ReturnValue, WaitStatus;
  }

  /** The server runs exactly the commands the lock holders were called with, in lock order and none twice: it is never more
      than one behind. */
  lemma CommandsRunInLockOrder(callers: nat, capacity: nat, acts: seq<Act>)
    ensures var s, order := Run(callers, capacity, acts), LockOrder(callers, capacity, acts);
            && |s.executed| <= |order| <= |s.executed| + 1
            && forall k :: 0 <= k < |s.executed| ==> order[k].1 == Some(s.executed[k].command)
  {
    RunKeepsInv(callers, capacity, acts);
    TurnsAreCalls(callers, capacity, acts, 0);
    var s, order := Run(callers, capacity, acts), LockOrder(callers, capacity, acts);
    forall k | 0 <= k < |s.executed|
      ensures order[k].1 == Some(s.executed[k].command)
    {
      TurnsAreCalls(callers, capacity, acts, k);
    }
    hide Run, LockOrder;
  }

  /** Whenever the lock is free both pipes are empty and the server waits for a new command. */
  lemma QuietWhenUnlocked(callers: nat, capacity: nat, acts: seq<Act>)
    requires Run(callers, capacity, acts).lock == None
    ensures var s := Run(callers, capacity, acts);
            s.commandPipe == [] && s.resultPipe == [] && s.server == ReadLength([]) && |s.results| == |s.turns|
  {
    RunKeepsInv(callers, capacity, acts);
  }

  /** The server never asks for more than fits in its buffer of MAX_COMMAND + 1 bytes. */
  lemma ServerBufferNeverOverrun(callers: nat, capacity: nat, acts: seq<Act>)
    ensures var s := Run(callers, capacity, acts);
            s.server.ReadCommand? ==> 0 < s.server.len <= MAX_COMMAND && |s.server.got| < s.server.len
  {
    RunKeepsInv(callers, capacity, acts);
    var s := Run(callers, capacity, acts);
    if s.lock.Some? {
      assert WellFormed(s.callers[s.lock.value]);
    }
  }

  /* ---------- progress ---------- */

  predicate IsWork(s: State, a: Act)
  {
    match a
    case Start(_, _) => false
    case Lock(_) => false
    case _ => true
  }

  /** With room for one byte in each pipe, someone can always move as long as the lock is held. */
  lemma HolderOrServerCanMove(callers: nat, capacity: nat, acts: seq<Act>)
    requires capacity >= 1 && Run(callers, capacity, acts).lock.Some? && !Run(callers, capacity, acts).aborted
    ensures exists a :: IsWork(Run(callers, capacity, acts), a) && Enabled(Run(callers, capacity, acts), capacity, a)
  {
    RunKeepsInv(callers, capacity, acts);
    var s := Run(callers, capacity, acts);
    var i := s.lock.value;
    var c := s.callers[i];
    assert WellFormed(c);
    var a :=
      if s.commandPipe != [] then ServerRead(1)
      else if c.pc.SendLength? || c.pc.SendCommand? then Write(i, 1)
      else if s.server.RunCommand? then ServerRun(Exited(0))
      else if s.resultPipe != [] then Read(i, 1)
      else if s.server.SendStatus? then ServerWrite(1)
      else Unlock(i);
    if |s.executed| == |s.results| {
      assert Requesting(c, s);
    }
    assert IsWork(s, a) && Enabled(s, capacity, a);
  }

  /** Byte moves still needed before the holder lets go of the lock. */
  function Rank(s: State): nat
  {
    if s.lock == None || s.lock.value >= |s.callers| then 0
    else
      var c := s.callers[s.lock.value];
      if |s.executed| == |s.results| then 2 * |Unsent(c)| + |s.commandPipe| + 10
      else (if s.server.SendStatus? then 2 * |s.server.left| else 0) + |s.resultPipe| + 1
  }

  lemma WorkLowersRank(s: State, capacity: nat, a: Act)
    requires Inv(s) && s.lock.Some? && Enabled(s, capacity, a) && IsWork(s, a) && Inv(Next(s, capacity, a))
    ensures Rank(Next(s, capacity, a)) < Rank(s)
  {
    var c := s.callers[s.lock.value];
    match a
    case Write(i, n) =>
      assert Critical(s.callers[i].pc);
      WriteMovesBytes(c, n, [], []);
      assert Requesting(c, s);
    case Read(i, n) => assert Critical(s.callers[i].pc);
    case Unlock(i) => assert Critical(s.callers[i].pc);
    case ServerRead(n) => assert Requesting(c, s);
    case ServerRun(_) => assert Requesting(c, s);
    case ServerWrite(n) => assert !Requesting(c, s);
  }

  /** Each step of the holder or of the server brings the release of the lock nearer; nobody else's step puts it off. */
  lemma WorkEndsCriticalSection(callers: nat, capacity: nat, acts: seq<Act>, a: Act)
    requires Run(callers, capacity, acts).lock.Some? && Enabled(Run(callers, capacity, acts), capacity, a)
    ensures var s := Run(callers, capacity, acts);
            var t := Next(s, capacity, a);
            && (IsWork(s, a) ==> Rank(t) < Rank(s))
            && (!IsWork(s, a) ==> Rank(t) == Rank(s))
            && Rank(s) <= 2 * (MAX_COMMAND + 4) + 10
  {
    RunKeepsInv(callers, capacity, acts);
    var s := Run(callers, capacity, acts);
    RankBound(s);
    if IsWork(s, a) {
      StepKeepsInv(s, capacity, a);
      WorkLowersRank(s, capacity, a);
    } else if a.Start? {
      assert !Critical(s.callers[a.i].pc);
    }
  }

  lemma RankBound(s: State)
    requires Inv(s) && s.lock.Some?
    ensures Rank(s) <= 2 * (MAX_COMMAND + 4) + 10
  {
    var c := s.callers[s.lock.value];
    assert WellFormed(c);
    if |s.executed| == |s.results| {
      assert Requesting(c, s);
      assert |Taken(s.server, c.command) + s.commandPipe + Unsent(c)| == |Message(c.command)|;
    } else {
      var raw := WaitStatus(s.executed[|s.results|].outcome);
      assert Answering(c, s, raw);
    }
  }
}
