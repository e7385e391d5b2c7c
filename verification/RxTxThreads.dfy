/** The two threads of the base station: subframe n belongs to the thread of its parity, which receives n and then prepares the
    transmission of n + 4. The front end wakes them in subframe order and stops the program if a thread has not finished its
    previous subframe, so neither gets two rounds ahead of the other. */
module RxTxThreads {

  /** A thread that has finished `even` (or `odd`) subframes may start its next one: the subframe before was handed to the other
      thread, which had then finished the one before that. */
  predicate MayStart(even: nat, odd: nat, isOdd: bool)
  {
    if isOdd then even >= odd else odd + 1 >= even
  }

  /** How far the threads can be apart, by whether each is inside a subframe. */
  predicate InStep(even: nat, evenBusy: bool, odd: nat, oddBusy: bool)
  {
    && even <= (if evenBusy then odd + 1 else odd + 2)
    && odd <= (if oddBusy then even else even + 1)
  }

  /** The subframe a thread works on or works on next. */
  function Tick(rounds: nat, isOdd: bool): nat
  {
    2 * rounds + if isOdd then 1 else 0
  }

  /** A thread that starts subframe n finds the other one with n - 1 or n + 1, or not started with n + 3. */
  lemma OtherIsNear(even: nat, evenBusy: bool, odd: nat, oddBusy: bool, isOdd: bool)
    requires InStep(even, evenBusy, odd, oddBusy) && !(if isOdd then oddBusy else evenBusy) && MayStart(even, odd, isOdd)
    ensures var n, m := if isOdd then Tick(odd, true) else Tick(even, false), if isOdd then Tick(even, false) else Tick(odd, true);
            m == n - 1 || m == n + 1 || (m == n + 3 && !(if isOdd then evenBusy else oddBusy))
  {
  }
}
