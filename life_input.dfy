/** The hold-to-repeat test of life/main.go (repeatingButtonPressed and
    repeatingKeyPressed), on the press duration d, in frames, that the
    framework reports for a mouse button or a key. */
module LifeInput {

  /** Frames before a held input starts repeating. */
  const Delay: int := 30
  /** Frames between repeats once repeating. */
  const Interval: int := 3

  /** Both functions of the source have this same body: fire on the first
      frame of a press, then from Delay on every Interval frames. */
  function RepeatPressed(d: int): (fire: bool)
    ensures fire <==> d == 1 || exists k: nat :: d == Delay + Interval * k
  {
    if d == 1 then true
    else if d >= Delay && (d - Delay) % Interval == 0 then
      var k: nat := (d - Delay) / Interval;
      assert d == Delay + Interval * k;
      true
    else false
  }

  /** How many of the frames 1..n of one hold fire. */
  function Fires(n: int): (k: nat)
    decreases n
  {
    if n <= 0 then 0
    else Fires(n - 1) + (if RepeatPressed(n) then 1 else 0)
  }

  /** Before the delay has run out only the first frame has fired. */
  lemma {:induction false} FiresOnceBeforeDelay(n: int)
    requires 1 <= n < Delay
    ensures Fires(n) == 1
  {
    if n > 1 {
      FiresOnceBeforeDelay(n - 1);
    }
  }

  /** A hold of Delay + Interval * k frames fires k + 2 times: once on the
      first frame, then at Delay, Delay + Interval, ..., Delay + Interval * k. */
  lemma {:induction false} FiresOnHold(k: nat)
    ensures Fires(Delay + Interval * k) == k + 2
  {
    if k == 0 {
      FiresOnceBeforeDelay(Delay - 1);
    } else {
      FiresOnHold(k - 1);
      var n := Delay + Interval * (k - 1);
      assert Fires(n + 1) == Fires(n) by { assert !RepeatPressed(n + 1); }
      assert Fires(n + 2) == Fires(n) by { assert !RepeatPressed(n + 2); }
      assert Fires(n + 3) == Fires(n) + 1 by { assert RepeatPressed(n + 3); }
      assert n + 3 == Delay + Interval * k;
    }
  }

  /** After the first frame nothing fires until the delay has run out, and
      from then on two firings are at least Interval frames apart. */
  lemma RepeatsAreSpaced(d1: int, d2: int)
    requires RepeatPressed(d1) && RepeatPressed(d2) && d1 < d2
    ensures d1 < Delay ==> d1 == 1 && d2 >= Delay
    ensures d1 >= Delay ==> d2 - d1 >= Interval
  {
  }
}
