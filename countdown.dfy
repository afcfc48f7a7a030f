/** The countdown of timed mode, as a value: the mode flag, the seconds
    left and whether the one-second interval is running. One firing of the
    interval decrements the seconds; when they reach zero the interval is
    cleared and the game ends. */
module Countdown {

  const RoundSeconds := 60

  datatype Timer = Timer(timerMode: bool, timeLeft: int, running: bool)

  /** The timer part of endGame: stopped, and back to a full round in timed mode. */
  function EndTimer(t: Timer): Timer {
    Timer(t.timerMode, if t.timerMode then RoundSeconds else t.timeLeft, false)
  }

  /** One firing of the interval: the new timer and whether endGame ran.
      A stopped timer has no interval, so nothing fires. */
  function TickTimer(t: Timer): (Timer, bool) {
    if !t.running then (t, false)
    else if t.timeLeft - 1 <= 0 then (EndTimer(Timer(t.timerMode, t.timeLeft - 1, false)), true)
    else (Timer(t.timerMode, t.timeLeft - 1, true), false)
  }

  /** The timer after k firings, and how many of them ended the game. */
  function RunTicks(t: Timer, k: nat): (Timer, nat)
    decreases k
  {
    if k == 0 then (t, 0)
    else
      var (t1, ended) := TickTimer(t);
      var (t2, ends) := RunTicks(t1, k - 1);
      (t2, ends + if ended then 1 else 0)
  }

  lemma {:induction false} StoppedTimerNeverEnds(t: Timer, k: nat)
    requires !t.running
    ensures RunTicks(t, k) == (t, 0)
    decreases k
  {
    if k > 0 {
      StoppedTimerNeverEnds(t, k - 1);
    }
  }

  /** Started with n >= 1 seconds in timed mode, the countdown is still
      running with n - k seconds left after k < n firings, and from the n-th
      firing on it has ended the game exactly once and stands stopped at a
      full round. */
  lemma {:induction false} CountdownEndsOnce(n: int, k: nat)
    requires n >= 1
    ensures RunTicks(Timer(true, n, true), k) ==
      if k < n then (Timer(true, n - k, true), 0) else (Timer(true, RoundSeconds, false), 1)
    decreases k
  {
    if k > 0 {
      if n == 1 {
        StoppedTimerNeverEnds(Timer(true, RoundSeconds, false), k - 1);
      } else {
        CountdownEndsOnce(n - 1, k - 1);
      }
    }
  }

  /** A full round: 59 firings end nothing, the 60th ends the game, and no
      firing after it ends the game again. */
  lemma FullRoundEndsOnSixtiethTick(k: nat)
    ensures RunTicks(Timer(true, RoundSeconds, true), RoundSeconds - 1).1 == 0
    ensures RunTicks(Timer(true, RoundSeconds, true), RoundSeconds) == (Timer(true, RoundSeconds, false), 1)
    ensures k >= RoundSeconds ==> RunTicks(Timer(true, RoundSeconds, true), k).1 == 1
  {
    CountdownEndsOnce(RoundSeconds, RoundSeconds - 1);
    CountdownEndsOnce(RoundSeconds, RoundSeconds);
    CountdownEndsOnce(RoundSeconds, k);
  }
}
