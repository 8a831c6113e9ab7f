/** The tick clock, `addTick` in `sys/ktime.c`: 96 timer ticks make five seconds. */
module Clock {
  /** Ticks per five seconds: four seconds of 19 and one of 20. */
  const ROUND := 96
  const DAY := 86400

  function Min(a: nat, b: nat): nat {
    if a < b then a else b
  }

  /** Whole seconds after `n` ticks. */
  function Seconds(n: nat): nat {
    5 * (n / ROUND) + Min(4, n % ROUND / 19)
  }

  /** Five-second rounds `q`, seconds `j` into the round and ticks `t` into the second add up to `n` ticks. */
  lemma SecondsOf(n: nat, q: nat, j: nat, t: nat)
    requires n == ROUND * q + 19 * j + t && j <= 4 && t < 19 + j / 4
    ensures Seconds(n) == 5 * q + j
  {
    var r := 19 * j + t;
    assert n / ROUND == q && n % ROUND == r;
    assert j < 4 ==> r / 19 == j;
  }

  class Timer {
    var ticks: nat
    var sCnt: nat
    var second: nat
    var day: nat
    var ms: nat
    /** Full five-second rounds so far. */
    ghost var rounds: nat

    ghost predicate Valid()
      reads this
    {
      && sCnt <= 4 && ticks < 19 + sCnt / 4
      && second < DAY && day * DAY + second == 5 * rounds + sCnt && second % 5 == sCnt
      && ms == 1000 * (5 * rounds + sCnt) + (if sCnt < 4 then 55 else 52) * ticks
    }

    /** The calls of addTick that led here. */
    ghost function Calls(): nat
      reads this
    {
      ROUND * rounds + 19 * sCnt + ticks
    }

    constructor ()
      ensures Valid() && Calls() == 0
    {
      ticks, sCnt, second, day, ms, rounds := 0, 0, 0, 0, 0, 0;
    }

    method AddTick()
      requires Valid()
      modifies this
      ensures Valid() && Calls() == old(Calls()) + 1
    {
      if sCnt < 4 {
        if ticks < 18 {
          ticks := ticks + 1;
          ms := ms + 55;
        } else {
          ms := ms + 10;
          second := second + 1;
          ticks := 0;
          sCnt := sCnt + 1;
        }
      } else {
        if ticks < 19 {
          ticks := ticks + 1;
          ms := ms + 52;
        } else {
          ms := ms + 12;
          second := second + 1;
          ticks := 0;
          sCnt := 0;
          rounds := rounds + 1;
        }
      }
      if second >= DAY {
        day := day + 1;
        second := 0;
      }
    }

    /** What the clock shows depends on the number of calls alone. */
    lemma Shows()
      requires Valid()
      ensures day * DAY + second == Seconds(Calls()) && second < DAY
      ensures sCnt == second % 5 && ms / 1000 == Seconds(Calls())
    {
      SecondsOf(Calls(), rounds, sCnt, ticks);
    }
  }

  /** After `n` calls of addTick from zero. */
  method Run(n: nat) returns (t: Timer)
    ensures t.Valid() && t.day == Seconds(n) / DAY && t.second == Seconds(n) % DAY
    ensures t.sCnt == t.second % 5 && t.ms / 1000 == Seconds(n)
  {
    t := new Timer();
    var i := 0;
    while i < n
      invariant i <= n && fresh(t) && t.Valid() && t.Calls() == i
    {
      t.AddTick();
      i := i + 1;
    }
    t.Shows();
  }
}
