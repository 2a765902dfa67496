/**
 The periodic timer of
 Code/Ch1-memory-centric-system-model/advanced-model/abstract_system_peripherals.py.
 */
module PeriodicTimer {
  import opened Division

  /** Remaining count and the period it is reset to. */
  datatype Timer = Timer(count: nat, period: nat)

  function Counted(t: Timer): nat { if t.count > 0 then t.count - 1 else 0 }

  /** One tick, and whether it raises an interrupt. */
  function Tick(t: Timer): (Timer, bool) {
    if Counted(t) == 0 then (t.(count := t.period), true) else (t.(count := Counted(t)), false)
  }

  function AfterTicks(t: Timer, n: nat): Timer {
    if n == 0 then t else Tick(AfterTicks(t, n - 1)).0
  }

  /** Interrupts raised in the first `n` ticks. */
  function Interrupts(t: Timer, n: nat): nat {
    if n == 0 then 0
    else Interrupts(t, n - 1) + if Tick(AfterTicks(t, n - 1)).1 then 1 else 0
  }

  method TimerAction(timerState: array<nat>) returns (timerIrq: bool)
    requires 2 <= timerState.Length
    modifies timerState
    ensures (Timer(timerState[0], timerState[1]), timerIrq) == Tick(old(Timer(timerState[0], timerState[1])))
    ensures timerState[2..] == old(timerState[2..])
  {
    if timerState[0] > 0 {
      timerState[0] := timerState[0] - 1;
    }
    timerIrq := false;
    if timerState[0] == 0 {
      timerIrq := true;
      timerState[0] := timerState[1];
    }
  }

  /** The tick that raises the first interrupt; a start count of 0 acts like 1. */
  function FirstTick(t: Timer): nat { if t.count == 0 then 1 else t.count }

  /** The distance between interrupts; a period of 0 acts like 1. */
  function Spacing(t: Timer): nat { if t.period == 0 then 1 else t.period }

  lemma DivModSuccessor(m: nat, p: nat)
    requires 0 < p
    ensures m % p + 1 < p ==> (m + 1) / p == m / p && (m + 1) % p == m % p + 1
    ensures m % p + 1 == p ==> (m + 1) / p == m / p + 1 && (m + 1) % p == 0
  {
    var q, r := m / p, m % p;
    assert m == q * p + r;
    if r + 1 < p {
      DivModOf(m + 1, p, q, r + 1);
    } else {
      assert (q + 1) * p == q * p + p;
      DivModOf(m + 1, p, q + 1, 0);
    }
  }

  function CountAfter(t: Timer, n: nat): int {
    if n < FirstTick(t) then t.count - (if t.count == 0 then 0 else n)
    else if t.period == 0 then 0
    else t.period - (n - FirstTick(t)) % t.period
  }

  /** Closed form of the remaining count. */
  lemma {:induction false} CountIsPeriodic(t: Timer, n: nat)
    ensures AfterTicks(t, n).count == CountAfter(t, n) && AfterTicks(t, n).period == t.period
  {
    if n == 0 {
    } else {
      CountIsPeriodic(t, n - 1);
      var before := AfterTicks(t, n - 1);
      if FirstTick(t) < n && t.period != 0 {
        var m, p := n - 1 - FirstTick(t), t.period;
        DivModSuccessor(m, p);
        var r := m % p;
        assert before.count == p - r && 0 <= r < p;
        assert CountAfter(t, n) == p - (m + 1) % p;
      } else if FirstTick(t) == n {
        assert CountAfter(t, n) == t.period by {
          FirstOfPeriod(t.period);
        }
      }
    }
  }

  lemma FirstOfPeriod(p: nat)
    ensures p != 0 ==> p - 0 % p == p
  {
  }

  /**
   For any start count and period the interrupts come at ticks FirstTick, FirstTick + Spacing,
   FirstTick + 2 * Spacing and so on.
   */
  lemma {:induction false} InterruptsAreEvenlySpaced(t: Timer, n: nat)
    ensures Interrupts(t, n) == if n < FirstTick(t) then 0 else 1 + (n - FirstTick(t)) / Spacing(t)
  {
    if n == 0 {
    } else {
      InterruptsAreEvenlySpaced(t, n - 1);
      CountIsPeriodic(t, n - 1);
      if FirstTick(t) < n {
        DivModSuccessor(n - 1 - FirstTick(t), Spacing(t));
      }
    }
  }

  /** From a start count and a period of at least 1: the interrupts raised and the count left after `n` ticks. */
  lemma TicksFromStart(count: nat, period: nat, n: nat)
    requires 1 <= count && 1 <= period
    ensures var t := Timer(count, period);
            && Interrupts(t, n) == (if n < count then 0 else 1 + (n - count) / period)
            && AfterTicks(t, n) == Timer(if n < count then count - n else period - (n - count) % period, period)
  {
    InterruptsAreEvenlySpaced(Timer(count, period), n);
    CountIsPeriodic(Timer(count, period), n);
  }
}
